/** The bytes of pulse blocks, and decoding them. */
module PulseRoundTrip {
  import opened CompositeFormat
  import opened CompositeProperties
  import opened PulseFormat
  import opened PulseProperties

  datatype PulseChannel = PulseChannel(channel: nat, pulses: seq<Pulse>)

  /** Of the time in the header, `upper` are the 32 bits that the decoder drops. */
  datatype PulseBlock = PulseBlock(slot: nat, trigger: int, time: int, upper: nat, channels: seq<PulseChannel>)

  predicate SignedWord(x: int) { -0x8000_0000 <= x < 0x8000_0000 }

  predicate PulseOkay(p: Pulse) {
    p.tdc < 0x1_0000 && SignedWord(p.adc) && p.ped < 0x1_0000 && p.max < 0x1_0000
  }

  predicate PulseChannelOkay(c: PulseChannel) {
    c.channel < 0x100 && |c.pulses| < 0x1_0000_0000 && forall i :: 0 <= i < |c.pulses| ==> PulseOkay(c.pulses[i])
  }

  predicate PulseBlockOkay(b: PulseBlock) {
    && 1 <= b.slot <= 21 && SignedWord(b.trigger) && SignedWord(b.time) && b.upper < 0x1_0000_0000
    && 1 <= |b.channels| < 0x8000_0000 && forall i :: 0 <= i < |b.channels| ==> PulseChannelOkay(b.channels[i])
  }

  // ---- the encoder ----

  function PulseBytes(p: Pulse): (e: seq<nat>)
    requires PulseOkay(p)
    ensures |e| == 10
  {
    LeBytes(p.tdc, 2) + LeBytes(Pattern(p.adc, 0x1_0000_0000), 4) + LeBytes(p.ped, 2) + LeBytes(p.max, 2)
  }

  function AllPulseBytes(ps: seq<Pulse>): (e: seq<nat>)
    requires forall i :: 0 <= i < |ps| ==> PulseOkay(ps[i])
    ensures |e| == 10 * |ps|
  {
    if ps == [] then [] else PulseBytes(ps[0]) + AllPulseBytes(ps[1..])
  }

  function PulseChannelBytes(c: PulseChannel): (e: seq<nat>)
    requires PulseChannelOkay(c)
    ensures |e| == 5 + 10 * |c.pulses|
  {
    [c.channel] + LeBytes(|c.pulses|, 4) + AllPulseBytes(c.pulses)
  }

  function PulseChannelsBytes(cs: seq<PulseChannel>): seq<nat>
    requires forall i :: 0 <= i < |cs| ==> PulseChannelOkay(cs[i])
  {
    if cs == [] then [] else PulseChannelBytes(cs[0]) + PulseChannelsBytes(cs[1..])
  }

  function PulseHeadBytes(b: PulseBlock): (e: seq<nat>)
    requires PulseBlockOkay(b)
    ensures |e| == 17
  {
    [b.slot] + LeBytes(Pattern(b.trigger, 0x1_0000_0000), 4)
    + LeBytes(Pattern(b.time, 0x1_0000_0000) + 0x1_0000_0000 * b.upper, 8) + LeBytes(|b.channels|, 4)
  }

  function PulseBlocksBytes(bs: seq<PulseBlock>): seq<nat>
    requires forall i :: 0 <= i < |bs| ==> PulseBlockOkay(bs[i])
  {
    if bs == [] then []
    else PulseHeadBytes(bs[0]) + PulseChannelsBytes(bs[0].channels) + PulseBlocksBytes(bs[1..])
  }

  // ---- what comes out ----

  function ChannelEntries(b: PulseBlock, cs: seq<PulseChannel>): seq<AdcPulse> {
    if cs == [] then []
    else [AdcPulse(b.slot, b.trigger, b.time, cs[0].channel, cs[0].pulses)] + ChannelEntries(b, cs[1..])
  }

  function BlockEntries(bs: seq<PulseBlock>): seq<AdcPulse> {
    if bs == [] then [] else ChannelEntries(bs[0], bs[0].channels) + BlockEntries(bs[1..])
  }

  // ---- decoding ----

  lemma FourParts(mem: Memory, at: nat, a: seq<nat>, b: seq<nat>, c: seq<nat>, d: seq<nat>)
    requires Lies(mem, at, a + b + c + d)
    ensures Lies(mem, at, a) && Lies(mem, at + |a|, b) && Lies(mem, at + |a| + |b|, c)
    ensures Lies(mem, at + |a| + |b| + |c|, d)
  {
    hide Lies;
    LiesSplit(mem, at, a + b + c, d);
    LiesSplit(mem, at, a + b, c);
    LiesSplit(mem, at, a, b);
  }

  lemma OneByte(mem: Memory, at: nat, x: nat)
    requires Lies(mem, at, [x])
    ensures mem(at) == x
  {
    assert mem(at + 0) == [x][0];
  }

  lemma PulseReadsBack(mem: Memory, at: nat, p: Pulse)
    requires PulseOkay(p) && Lies(mem, at, PulseBytes(p))
    ensures ReadPulse(mem, at) == p
  {
    hide Le, LeBytes, Pattern, AsInt32, Lies;
    var adc := Pattern(p.adc, 0x1_0000_0000);
    Caps();
    PatternReadsBack(p.adc);
    FourParts(mem, at, LeBytes(p.tdc, 2), LeBytes(adc, 4), LeBytes(p.ped, 2), LeBytes(p.max, 2));
    LeReadsBack(mem, at, p.tdc, 2);
    LeReadsBack(mem, at + 2, adc, 4);
    LeReadsBack(mem, at + 6, p.ped, 2);
    LeReadsBack(mem, at + 8, p.max, 2);
  }

  lemma {:induction false} PulsesReadBack(mem: Memory, at: nat, ps: seq<Pulse>)
    requires forall i :: 0 <= i < |ps| ==> PulseOkay(ps[i])
    requires Lies(mem, at, AllPulseBytes(ps))
    ensures ReadPulses(mem, at, |ps|) == ps
    decreases |ps|
  {
    hide ReadPulse, PulseBytes, PulseOkay, Lies;
    if ps != [] {
      LiesSplit(mem, at, PulseBytes(ps[0]), AllPulseBytes(ps[1..]));
      PulseReadsBack(mem, at, ps[0]);
      PulsesReadBack(mem, at + 10, ps[1..]);
    }
  }

  lemma PulseChannelReadsBack(mem: Memory, at: nat, c: PulseChannel, h: PulseHead)
    requires PulseChannelOkay(c) && Lies(mem, at, PulseChannelBytes(c))
    ensures Le(mem, at + 1, 4) == |c.pulses|
    ensures ReadRegion(mem, at, h).adc == AdcPulse(h.slot, h.trigger, h.time, c.channel, c.pulses)
  {
    hide Le, LeBytes, ReadPulses, AllPulseBytes;
    Caps();
    LiesSplit(mem, at, [c.channel] + LeBytes(|c.pulses|, 4), AllPulseBytes(c.pulses));
    LiesSplit(mem, at, [c.channel], LeBytes(|c.pulses|, 4));
    assert mem(at + 0) == [c.channel][0];
    LeReadsBack(mem, at + 1, |c.pulses|, 4);
    PulsesReadBack(mem, at + 5, c.pulses);
  }

  /** The upper half of the time is dropped. */
  lemma LowWord(x: int, upper: nat)
    requires SignedWord(x)
    ensures AsInt32(Pattern(x, 0x1_0000_0000) + 0x1_0000_0000 * upper) == x
  {
    assert (Pattern(x, 0x1_0000_0000) + 0x1_0000_0000 * upper) % 0x1_0000_0000 == Pattern(x, 0x1_0000_0000);
  }

  lemma HeadNumbers(b: PulseBlock)
    requires PulseBlockOkay(b)
    ensures var trigger, time := Pattern(b.trigger, 0x1_0000_0000), Pattern(b.time, 0x1_0000_0000);
            && trigger < Cap(4) && time + 0x1_0000_0000 * b.upper < Cap(8) && |b.channels| < Cap(4)
            && AsInt32(trigger) == b.trigger && AsInt32(time + 0x1_0000_0000 * b.upper) == b.time
            && AsInt32(|b.channels|) == |b.channels|
  {
    hide AsInt32, Cap;
    Caps();
    PatternReadsBack(b.trigger);
    PatternReadsBack(b.time);
    LowWord(b.time, b.upper);
    SmallIsItself(|b.channels|);
  }

  lemma PulseHeadReadsBack(mem: Memory, at: nat, b: PulseBlock)
    requires PulseBlockOkay(b) && Lies(mem, at, PulseHeadBytes(b))
    ensures ReadPulseHead(mem, at) == PulseHead(b.slot, b.trigger, b.time, |b.channels|)
  {
    hide Le, LeBytes, Pattern, AsInt32, Lies, Cap, PulseChannelOkay;
    var trigger := Pattern(b.trigger, 0x1_0000_0000);
    var time := Pattern(b.time, 0x1_0000_0000) + 0x1_0000_0000 * b.upper;
    HeadNumbers(b);
    FourParts(mem, at, [b.slot], LeBytes(trigger, 4), LeBytes(time, 8), LeBytes(|b.channels|, 4));
    OneByte(mem, at, b.slot);
    LeReadsBack(mem, at + 1, trigger, 4);
    LeReadsBack(mem, at + 5, time, 8);
    LeReadsBack(mem, at + 13, |b.channels|, 4);
  }

  lemma InBuffer(data: nat, pulses: nat, n: nat)
    requires data + 10 * pulses <= n < 0x8000_0000
    ensures CheckedEnd(data, pulses) <= n
  {
  }

  lemma {:induction false} PulseChannelsReadBack(mem: Memory, n: nat, at: nat, b: PulseBlock, h: PulseHead,
                                                 cs: seq<PulseChannel>)
    requires forall i :: 0 <= i < |cs| ==> PulseChannelOkay(cs[i])
    requires Lies(mem, at, PulseChannelsBytes(cs)) && at + |PulseChannelsBytes(cs)| <= n < 0x8000_0000
    requires h.slot == b.slot && h.trigger == b.trigger && h.time == b.time
    ensures var r := PulseChannels(mem, n, at, h, |cs|);
            AdcsOfRegions(r.0) == ChannelEntries(b, cs) && r.1 == at + |PulseChannelsBytes(cs)|
    decreases |cs|
  {
    hide Le, ReadRegion, PulseChannelBytes, PulseChannelOkay, CheckedEnd, Lies;
    if cs != [] {
      var c := cs[0];
      LiesSplit(mem, at, PulseChannelBytes(c), PulseChannelsBytes(cs[1..]));
      PulseChannelReadsBack(mem, at, c, h);
      InBuffer(at + 5, |c.pulses|, n);
      var next := at + 5 + 10 * |c.pulses|;
      PulseChannelsReadBack(mem, n, next, b, h, cs[1..]);
      var rest := PulseChannels(mem, n, next, h, |cs| - 1);
      var e := ReadRegion(mem, at, h);
      assert ([e] + rest.0)[1..] == rest.0;
    }
  }

  lemma {:induction false} RegionEntriesConcat(a: seq<Region>, b: seq<Region>)
    ensures AdcsOfRegions(a + b) == AdcsOfRegions(a) + AdcsOfRegions(b)
    decreases |a|
  {
    if a == [] {
      assert a + b == b;
    } else {
      assert (a + b)[1..] == a[1..] + b;
      RegionEntriesConcat(a[1..], b);
    }
  }

  lemma {:induction false} ZerosGiveNoPulses(mem: Memory, n: nat, offset: nat)
    requires forall i :: offset <= i < n ==> mem(i) == 0
    ensures PulseBlocks(mem, n, offset) == []
    decreases n - offset
  {
    hide Le;
    if offset < n {
      assert ReadPulseHead(mem, offset).slot == 0;
      ZerosGiveNoPulses(mem, n, offset + 17);
    }
  }

  /** Decoding the bytes of any list of pulse blocks, filled up with zeros to the end of a buffer that an
      int can measure, gives their channels and pulses in order. */
  lemma {:induction false} PulseBlocksReadBack(mem: Memory, n: nat, at: nat, bs: seq<PulseBlock>)
    requires forall i :: 0 <= i < |bs| ==> PulseBlockOkay(bs[i])
    requires Lies(mem, at, PulseBlocksBytes(bs)) && at + |PulseBlocksBytes(bs)| <= n < 0x8000_0000
    requires forall i :: at + |PulseBlocksBytes(bs)| <= i < n ==> mem(i) == 0
    ensures AdcsOfRegions(PulseBlocks(mem, n, at)) == BlockEntries(bs)
    decreases |bs|
  {
    hide ReadPulseHead, PulseHeadBytes, PulseChannelsBytes, PulseChannels, Lies, AdcsOfRegions;
    if bs == [] {
      ZerosGiveNoPulses(mem, n, at);
      assert AdcsOfRegions([]) == [] by { NoEntries(); }
    } else {
      var b := bs[0];
      assert PulseBlockOkay(b);
      LiesSplit(mem, at, PulseHeadBytes(b) + PulseChannelsBytes(b.channels), PulseBlocksBytes(bs[1..]));
      LiesSplit(mem, at, PulseHeadBytes(b), PulseChannelsBytes(b.channels));
      PulseHeadReadsBack(mem, at, b);
      var h := ReadPulseHead(mem, at);
      PulseChannelsReadBack(mem, n, at + 17, b, h, b.channels);
      var r := PulseChannels(mem, n, at + 17, h, |b.channels|);
      PulseBlocksReadBack(mem, n, r.1, bs[1..]);
      RegionEntriesConcat(r.0, PulseBlocks(mem, n, r.1));
    }
  }

  lemma NoEntries()
    ensures AdcsOfRegions([]) == []
  {
  }
}
