/** The pulse form of the composite bank: channels of ten-byte pulses. */
module PulseFormat {
  import opened CompositeFormat

  datatype Pulse = Pulse(tdc: nat, adc: int, ped: nat, max: nat)

  datatype AdcPulse = AdcPulse(slot: nat, trigger: int, time: int, channel: nat, pulses: seq<Pulse>)

  const ENTRY := 10

  /** An emitted channel and where its pulses begin. */
  datatype Region = Region(adc: AdcPulse, start: nat)
  {
    function End(): nat { start + ENTRY * |adc.pulses| }
  }

  datatype PulseHead = PulseHead(slot: nat, trigger: int, time: int, nChannels: int)
  {
    /** There is no upper limit on the channels here. */
    predicate Skipped() { nChannels <= 0 || slot <= 0 || slot > 21 }
  }

  /** The time is cut to 32 bits; its halves are not exchanged. */
  function ReadPulseHead(mem: Memory, at: nat): PulseHead {
    PulseHead(mem(at), AsInt32(Le(mem, at + 1, 4)), AsInt32(Le(mem, at + 5, 8)), AsInt32(Le(mem, at + 13, 4)))
  }

  function ReadPulse(mem: Memory, at: nat): Pulse {
    Pulse(Le(mem, at, 2), AsInt32(Le(mem, at + 2, 4)), Le(mem, at + 6, 2), Le(mem, at + 8, 2))
  }

  function ReadPulses(mem: Memory, at: nat, n: nat): (p: seq<Pulse>)
    ensures |p| == n
    decreases n
  {
    if n == 0 then [] else [ReadPulse(mem, at)] + ReadPulses(mem, at + ENTRY, n - 1)
  }

  /** Where a channel's pulses would end, in 32 unsigned bits as the check against the buffer takes it. */
  function CheckedEnd(data: nat, pulses: nat): nat {
    (data + pulses * ENTRY) % 0x1_0000_0000
  }

  function ReadRegion(mem: Memory, at: nat, h: PulseHead): Region {
    var data := at + CHANNEL_HEADER;
    Region(AdcPulse(h.slot, h.trigger, h.time, mem(at), ReadPulses(mem, data, Le(mem, at + 1, 4))), data)
  }

  /** Up to `left` channels, and where the decoder goes on. */
  function PulseChannels(mem: Memory, n: nat, offset: nat, h: PulseHead, left: nat): (r: (seq<Region>, nat))
    ensures r.1 >= offset
    decreases left
  {
    if left == 0 then ([], offset)
    else
      var pulses, data := Le(mem, offset + 1, 4), offset + CHANNEL_HEADER;
      if CheckedEnd(data, pulses) > n then ([], data)
      else
        var rest := PulseChannels(mem, n, data + ENTRY * pulses, h, left - 1);
        ([ReadRegion(mem, offset, h)] + rest.0, rest.1)
  }

  function PulseBlocks(mem: Memory, n: nat, offset: nat): seq<Region>
    decreases n - offset
  {
    if offset >= n then []
    else
      var h := ReadPulseHead(mem, offset);
      if h.Skipped() then PulseBlocks(mem, n, offset + BLOCK_HEADER)
      else
        var r := PulseChannels(mem, n, offset + BLOCK_HEADER, h, h.nChannels);
        r.0 + PulseBlocks(mem, n, r.1)
  }

  function AdcsOfRegions(rs: seq<Region>): seq<AdcPulse> {
    if rs == [] then [] else [rs[0].adc] + AdcsOfRegions(rs[1..])
  }
}

/** Where the pulses come from. */
module PulseProperties {
  import opened CompositeFormat
  import opened PulseFormat

  /** Increasing and without overlap from lo on; each has passed the check against n bytes. */
  ghost predicate Passed(rs: seq<Region>, lo: nat, n: nat) {
    && (forall i :: 0 <= i < |rs| ==> lo <= rs[i].start && rs[i].End() % 0x1_0000_0000 <= n)
    && (forall i, j :: 0 <= i < j < |rs| ==> rs[i].End() < rs[j].start)
  }

  lemma {:induction false} ChannelsPass(mem: Memory, n: nat, offset: nat, h: PulseHead, left: nat)
    ensures var r := PulseChannels(mem, n, offset, h, left);
            Passed(r.0, offset + 1, n) && forall i :: 0 <= i < |r.0| ==> r.0[i].End() <= r.1
    decreases left
  {
    hide Le, ReadPulses, Passed, CheckedEnd;
    NonePass(offset + 1, n);
    if left > 0 {
      var pulses, data := Le(mem, offset + 1, 4), offset + CHANNEL_HEADER;
      if CheckedEnd(data, pulses) <= n {
        ChannelsPass(mem, n, data + ENTRY * pulses, h, left - 1);
        CheckedEndIs(data, pulses);
        var rest := PulseChannels(mem, n, data + ENTRY * pulses, h, left - 1).0;
        OneMorePasses(ReadRegion(mem, offset, h), rest, offset + 1, n);
      }
    }
  }

  lemma NonePass(lo: nat, n: nat)
    ensures Passed([], lo, n)
  {
  }

  lemma CheckedEndIs(data: nat, pulses: nat)
    ensures CheckedEnd(data, pulses) == (data + ENTRY * pulses) % 0x1_0000_0000
  {
  }

  lemma OneMorePasses(e: Region, rest: seq<Region>, lo: nat, n: nat)
    requires lo <= e.start && e.End() % 0x1_0000_0000 <= n && Passed(rest, e.End() + 1, n)
    ensures Passed([e] + rest, lo, n)
  {
  }

  lemma {:induction false} BlocksPass(mem: Memory, n: nat, offset: nat)
    ensures Passed(PulseBlocks(mem, n, offset), offset + 1, n)
    decreases n - offset
  {
    hide ReadPulseHead, PulseChannels;
    if offset < n {
      var h := ReadPulseHead(mem, offset);
      if h.Skipped() {
        BlocksPass(mem, n, offset + BLOCK_HEADER);
      } else {
        var r := PulseChannels(mem, n, offset + BLOCK_HEADER, h, h.nChannels);
        ChannelsPass(mem, n, offset + BLOCK_HEADER, h, h.nChannels);
        BlocksPass(mem, n, r.1);
      }
    }
  }

  // ---- inside the buffer, read off the headers ----

  /** Where the decoder goes on behind up to `left` channels. */
  function ChannelsEnd(mem: Memory, n: nat, offset: nat, left: nat): (end: nat)
    ensures end >= offset
    decreases left
  {
    if left == 0 then offset
    else
      var pulses, data := Le(mem, offset + 1, 4), offset + CHANNEL_HEADER;
      if CheckedEnd(data, pulses) > n then data else ChannelsEnd(mem, n, data + ENTRY * pulses, left - 1)
  }

  /** Of up to `left` channels, each one that passes the check announces pulses that end in the buffer. */
  predicate ChannelsFit(mem: Memory, n: nat, offset: nat, left: nat)
    decreases left
  {
    left == 0 ||
    var pulses, data := Le(mem, offset + 1, 4), offset + CHANNEL_HEADER;
    CheckedEnd(data, pulses) > n ||
    (data + ENTRY * pulses <= n && ChannelsFit(mem, n, data + ENTRY * pulses, left - 1))
  }

  /** The same of all channels in the buffer. */
  predicate BlocksFit(mem: Memory, n: nat, offset: nat)
    decreases n - offset
  {
    offset >= n ||
    var h := ReadPulseHead(mem, offset);
    if h.Skipped() then BlocksFit(mem, n, offset + BLOCK_HEADER)
    else
      && ChannelsFit(mem, n, offset + BLOCK_HEADER, h.nChannels)
      && BlocksFit(mem, n, ChannelsEnd(mem, n, offset + BLOCK_HEADER, h.nChannels))
  }

  /** All pulses of the channels lie in a buffer of n bytes. */
  ghost predicate Inside(rs: seq<Region>, n: nat) {
    forall i :: 0 <= i < |rs| ==> rs[i].End() <= n
  }

  lemma InsideConcat(a: seq<Region>, b: seq<Region>, n: nat)
    ensures Inside(a + b, n) <==> Inside(a, n) && Inside(b, n)
  {
    if Inside(a + b, n) {
      assert forall i :: 0 <= i < |a| ==> (a + b)[i] == a[i];
      assert forall i :: 0 <= i < |b| ==> (a + b)[|a| + i] == b[i];
    }
  }

  lemma {:induction false} ChannelsInsideExactlyWhen(mem: Memory, n: nat, offset: nat, h: PulseHead, left: nat)
    ensures var r := PulseChannels(mem, n, offset, h, left);
            (Inside(r.0, n) <==> ChannelsFit(mem, n, offset, left)) && r.1 == ChannelsEnd(mem, n, offset, left)
    decreases left
  {
    hide Le, ReadPulses, CheckedEnd, Inside;
    NoneInside(n);
    if left > 0 {
      var pulses, data := Le(mem, offset + 1, 4), offset + CHANNEL_HEADER;
      if CheckedEnd(data, pulses) <= n {
        ChannelsInsideExactlyWhen(mem, n, data + ENTRY * pulses, h, left - 1);
        var e := ReadRegion(mem, offset, h);
        InsideConcat([e], PulseChannels(mem, n, data + ENTRY * pulses, h, left - 1).0, n);
        OneInside(e, n);
      }
    }
  }

  lemma NoneInside(n: nat)
    ensures Inside([], n)
  {
  }

  lemma OneInside(e: Region, n: nat)
    ensures Inside([e], n) <==> e.End() <= n
  {
    assert [e][0] == e;
  }

  lemma {:induction false} BlocksInsideExactlyWhen(mem: Memory, n: nat, offset: nat)
    ensures Inside(PulseBlocks(mem, n, offset), n) <==> BlocksFit(mem, n, offset)
    decreases n - offset
  {
    hide ReadPulseHead, PulseChannels, Inside, ChannelsFit, ChannelsEnd;
    NoneInside(n);
    if offset < n {
      var h := ReadPulseHead(mem, offset);
      if h.Skipped() {
        BlocksInsideExactlyWhen(mem, n, offset + BLOCK_HEADER);
      } else {
        var r := PulseChannels(mem, n, offset + BLOCK_HEADER, h, h.nChannels);
        ChannelsInsideExactlyWhen(mem, n, offset + BLOCK_HEADER, h, h.nChannels);
        BlocksInsideExactlyWhen(mem, n, r.1);
        InsideConcat(r.0, PulseBlocks(mem, n, r.1), n);
      }
    }
  }

  /** All emitted pulses lie inside the buffer exactly when every channel on the way that passes the
      32-bit check announces pulses that do. */
  lemma RegionsInsideExactlyWhen(mem: Memory, n: nat)
    ensures var rs := PulseBlocks(mem, n, 0);
            (forall i :: 0 <= i < |rs| ==> rs[i].End() <= n) <==> BlocksFit(mem, n, 0)
  {
    hide PulseBlocks, BlocksFit;
    BlocksInsideExactlyWhen(mem, n, 0);
  }

  /** Seven words of one block with one channel that announces 0x1999999a pulses. */
  predicate HugeCount(mem: Memory) {
    && mem(0) == 1 && mem(13) == 1 && mem(18) == 0x9a && mem(19) == 0x99 && mem(20) == 0x99 && mem(21) == 0x19
    && forall i :: 0 <= i < 28 && i !in {0, 13, 18, 19, 20, 21} ==> mem(i) == 0
  }

  lemma Le4(mem: Memory, at: nat)
    ensures Le(mem, at, 4) == mem(at) + 256 * (mem(at + 1) + 256 * (mem(at + 2) + 256 * mem(at + 3)))
  {
    assert Le(mem, at + 3, 1) == mem(at + 3);
    assert Le(mem, at + 2, 2) == mem(at + 2) + 256 * Le(mem, at + 3, 1);
    assert Le(mem, at + 1, 3) == mem(at + 1) + 256 * Le(mem, at + 2, 2);
  }

  /** A buffer of 28 bytes whose channel passes the check, because its end is taken to be 26: its pulses
      run from byte 22 to 2^32 bytes further than that. */
  lemma HugeCountIsEmitted(mem: Memory)
    requires HugeCount(mem)
    ensures var rs := PulseBlocks(mem, 28, 0);
            |rs| == 1 && rs[0].start == 22 && rs[0].End() == 26 + 0x1_0000_0000 && !BlocksFit(mem, 28, 0)
  {
    Le4(mem, 13);
    Le4(mem, 18);
    hide Le, ReadPulses;
    var h := ReadPulseHead(mem, 0);
    assert h.slot == 1 && h.nChannels == 1;
    var e := ReadRegion(mem, 17, h);
    assert PulseChannels(mem, 28, 17, h, 1).0 == [e] + PulseChannels(mem, 28, e.End(), h, 0).0;
    assert PulseBlocks(mem, 28, e.End()) == [];
    RegionsInsideExactlyWhen(mem, 28);
  }
}
