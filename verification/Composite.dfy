/** The composite-bank decoder: blocks of channels of samples at byte offsets. */
module CompositeFormat {

  type Byte = x: nat | x < 0x100

  /** The memory the decoder reads; bytes at and after the end of the buffer may be anything. */
  type Memory = nat -> Byte

  datatype Adc = Adc(slot: nat, trigger: int, time: nat, channel: nat, samples: seq<int>)

  /** An emitted channel and the bytes its samples came from. */
  datatype Emitted = Emitted(adc: Adc, start: nat)
  {
    function End(): nat { start + 2 * |adc.samples| }
  }

  /** Little-endian number of k bytes. */
  function Le(mem: Memory, at: nat, k: nat): nat
    decreases k
  {
    if k == 0 then 0 else mem(at) + 256 * Le(mem, at + 1, k - 1)
  }

  function AsInt32(x: nat): int {
    if x % 0x1_0000_0000 < 0x8000_0000 then x % 0x1_0000_0000 else x % 0x1_0000_0000 - 0x1_0000_0000
  }

  function AsInt16(x: nat): int { if x % 0x1_0000 < 0x8000 then x % 0x1_0000 else x % 0x1_0000 - 0x1_0000 }

  /** Exchanges the two lower 24-bit halves of a 64-bit word and drops the rest. */
  function SwapHalves(t: nat): nat {
    t / 0x100_0000 % 0x100_0000 + t % 0x100_0000 * 0x100_0000
  }

  const BLOCK_HEADER := 17
  const CHANNEL_HEADER := 5

  datatype BlockHead = BlockHead(slot: nat, trigger: int, time: nat, nChannels: int)
  {
    /** The three work-arounds that skip a header. */
    predicate Skipped() { nChannels <= 0 || nChannels > 16 || slot <= 0 || slot > 21 }
  }

  function ReadHead(mem: Memory, at: nat): BlockHead {
    BlockHead(mem(at), AsInt32(Le(mem, at + 1, 4)), SwapHalves(Le(mem, at + 5, 8)), AsInt32(Le(mem, at + 13, 4)))
  }

  function ReadShorts(mem: Memory, at: nat, n: nat): (s: seq<int>)
    ensures |s| == n
    decreases n
  {
    if n == 0 then [] else [AsInt16(Le(mem, at, 2))] + ReadShorts(mem, at + 2, n - 1)
  }

  function ReadChannel(mem: Memory, at: nat, h: BlockHead): Emitted {
    var data := at + CHANNEL_HEADER;
    Emitted(Adc(h.slot, h.trigger, h.time, mem(at), ReadShorts(mem, data, Le(mem, at + 1, 4))), data)
  }

  /** Up to `left` channels of a block in a buffer of n bytes, and where the decoder goes on: a channel
      that would pass the end is given up after its header. */
  function Channels(mem: Memory, n: nat, offset: nat, h: BlockHead, left: nat): (r: (seq<Emitted>, nat))
    ensures r.1 >= offset && (left > 0 ==> r.1 >= offset + CHANNEL_HEADER)
    decreases left
  {
    if left == 0 then ([], offset)
    else
      var samples := Le(mem, offset + 1, 4);
      var data := offset + CHANNEL_HEADER;
      if data + 2 * samples > n then ([], data)
      else
        var rest := Channels(mem, n, data + 2 * samples, h, left - 1);
        ([ReadChannel(mem, offset, h)] + rest.0, rest.1)
  }

  function Blocks(mem: Memory, n: nat, offset: nat): seq<Emitted>
    decreases n - offset
  {
    if offset >= n then []
    else
      var h := ReadHead(mem, offset);
      if h.Skipped() then Blocks(mem, n, offset + BLOCK_HEADER)
      else
        var r := Channels(mem, n, offset + BLOCK_HEADER, h, h.nChannels);
        r.0 + Blocks(mem, n, r.1)
  }

  function AdcsOf(es: seq<Emitted>): (a: seq<Adc>)
    ensures |a| == |es|
  {
    if es == [] then [] else [es[0].adc] + AdcsOf(es[1..])
  }
}

/** What the decoder does on every buffer, and that it inverts the encoder. */
module CompositeProperties {
  import opened CompositeFormat

  // ---- regions ----

  /** The sample regions lie between lo and n, in increasing order and without overlap. */
  ghost predicate InOrder(es: seq<Emitted>, lo: nat, n: nat) {
    && (forall i :: 0 <= i < |es| ==> lo <= es[i].start && es[i].End() <= n)
    && (forall i, j :: 0 <= i < j < |es| ==> es[i].End() + CHANNEL_HEADER <= es[j].start)
  }

  lemma {:induction false} ChannelsInOrder(mem: Memory, n: nat, offset: nat, h: BlockHead, left: nat)
    ensures var r := Channels(mem, n, offset, h, left);
            InOrder(r.0, offset + CHANNEL_HEADER, n) && InOrder(r.0, offset + CHANNEL_HEADER, r.1)
    decreases left
  {
    hide ReadShorts, Le;
    if left > 0 {
      var samples := Le(mem, offset + 1, 4);
      var data := offset + CHANNEL_HEADER;
      if data + 2 * samples <= n {
        ChannelsInOrder(mem, n, data + 2 * samples, h, left - 1);
      }
    }
  }

  /** Whatever the bytes say and whichever headers are skipped or given up, the emitted sample
      regions are disjoint, in increasing order and inside the buffer. */
  lemma {:induction false} BlocksInOrder(mem: Memory, n: nat, offset: nat)
    ensures InOrder(Blocks(mem, n, offset), offset + BLOCK_HEADER + CHANNEL_HEADER, n)
    decreases n - offset
  {
    hide ReadHead, Channels;
    if offset < n {
      var h := ReadHead(mem, offset);
      if h.Skipped() {
        BlocksInOrder(mem, n, offset + BLOCK_HEADER);
      } else {
        var r := Channels(mem, n, offset + BLOCK_HEADER, h, h.nChannels);
        ChannelsInOrder(mem, n, offset + BLOCK_HEADER, h, h.nChannels);
        BlocksInOrder(mem, n, r.1);
      }
    }
  }

  // ---- bytes past the end ----

  ghost predicate Agree(a: Memory, b: Memory, n: nat) {
    forall i :: 0 <= i < n ==> a(i) == b(i)
  }

  lemma {:induction false} LeAgrees(a: Memory, b: Memory, n: nat, at: nat, k: nat)
    requires Agree(a, b, n) && at + k <= n
    ensures Le(a, at, k) == Le(b, at, k)
    decreases k
  {
    if k > 0 {
      LeAgrees(a, b, n, at + 1, k - 1);
    }
  }

  lemma {:induction false} ShortsAgree(a: Memory, b: Memory, n: nat, at: nat, k: nat)
    requires Agree(a, b, n) && at + 2 * k <= n
    ensures ReadShorts(a, at, k) == ReadShorts(b, at, k)
    decreases k
  {
    if k > 0 {
      LeAgrees(a, b, n, at, 2);
      ShortsAgree(a, b, n, at + 2, k - 1);
    }
  }

  lemma {:induction false} ChannelsAgree(a: Memory, b: Memory, n: nat, offset: nat, h: BlockHead, left: nat)
    requires Agree(a, b, n)
    ensures Channels(a, n, offset, h, left).0 == Channels(b, n, offset, h, left).0
    ensures Channels(a, n, offset, h, left).1 == Channels(b, n, offset, h, left).1 ||
            (Channels(a, n, offset, h, left).1 >= n && Channels(b, n, offset, h, left).1 >= n)
    decreases left
  {
    hide ReadShorts, Le;
    if left > 0 && offset + CHANNEL_HEADER <= n {
      LeAgrees(a, b, n, offset + 1, 4);
      var samples := Le(a, offset + 1, 4);
      var data := offset + CHANNEL_HEADER;
      if data + 2 * samples <= n {
        ShortsAgree(a, b, n, data, samples);
        ChannelsAgree(a, b, n, data + 2 * samples, h, left - 1);
      }
    }
  }

  /** The result does not depend on the bytes past the end, although the decoder may read them. */
  lemma {:induction false} BlocksAgree(a: Memory, b: Memory, n: nat, offset: nat)
    requires Agree(a, b, n)
    ensures Blocks(a, n, offset) == Blocks(b, n, offset)
    decreases n - offset
  {
    hide Le;
    if offset < n {
      if offset + BLOCK_HEADER <= n {
        LeAgrees(a, b, n, offset + 1, 4);
        LeAgrees(a, b, n, offset + 5, 8);
        LeAgrees(a, b, n, offset + 13, 4);
        var h := ReadHead(a, offset);
        if h.Skipped() {
          BlocksAgree(a, b, n, offset + BLOCK_HEADER);
        } else {
          ChannelsAgree(a, b, n, offset + BLOCK_HEADER, h, h.nChannels);
          BlocksAgree(a, b, n, Channels(a, n, offset + BLOCK_HEADER, h, h.nChannels).1);
        }
      } else {
        CutHeaderIsLast(a, n, offset);
        CutHeaderIsLast(b, n, offset);
      }
    }
  }

  lemma CutHeaderIsLast(mem: Memory, n: nat, offset: nat)
    requires offset < n < offset + BLOCK_HEADER
    ensures Blocks(mem, n, offset) == []
  {
    hide Le;
    var h := ReadHead(mem, offset);
    if !h.Skipped() {
      assert Channels(mem, n, offset + BLOCK_HEADER, h, h.nChannels) == ([], offset + BLOCK_HEADER + CHANNEL_HEADER);
    }
  }

  // ---- the encoder ----

  datatype Channel = Channel(channel: nat, samples: seq<int>)
  datatype Block = Block(slot: nat, trigger: int, time: nat, channels: seq<Channel>)

  function LeBytes(v: nat, k: nat): (s: seq<nat>)
    ensures |s| == k
    decreases k
  {
    if k == 0 then [] else [v % 256] + LeBytes(v / 256, k - 1)
  }

  /** The two's complement pattern of a signed number. */
  function Pattern(x: int, range: int): nat
    requires -range < x < range
  {
    if x < 0 then x + range else x
  }

  ghost predicate ChannelOkay(c: Channel) {
    && c.channel < 0x100 && |c.samples| < 0x1_0000_0000
    && forall i :: 0 <= i < |c.samples| ==> -0x8000 <= c.samples[i] < 0x8000
  }

  ghost predicate BlockOkay(b: Block) {
    && 1 <= b.slot <= 21 && -0x8000_0000 <= b.trigger < 0x8000_0000 && b.time < 0x1_0000_0000_0000
    && 1 <= |b.channels| <= 16 && forall i :: 0 <= i < |b.channels| ==> ChannelOkay(b.channels[i])
  }

  ghost function EncodeShorts(s: seq<int>): (e: seq<nat>)
    requires forall i :: 0 <= i < |s| ==> -0x8000 <= s[i] < 0x8000
    ensures |e| == 2 * |s|
  {
    if s == [] then [] else LeBytes(Pattern(s[0], 0x1_0000), 2) + EncodeShorts(s[1..])
  }

  ghost function EncodeChannel(c: Channel): (e: seq<nat>)
    requires ChannelOkay(c)
    ensures |e| == CHANNEL_HEADER + 2 * |c.samples|
  {
    [c.channel] + LeBytes(|c.samples|, 4) + EncodeShorts(c.samples)
  }

  ghost function EncodeChannels(cs: seq<Channel>): seq<nat>
    requires forall i :: 0 <= i < |cs| ==> ChannelOkay(cs[i])
  {
    if cs == [] then [] else EncodeChannel(cs[0]) + EncodeChannels(cs[1..])
  }

  /** The header carries the upper half of the time below the lower one. */
  ghost function EncodeHead(b: Block): (e: seq<nat>)
    requires BlockOkay(b)
    ensures |e| == BLOCK_HEADER
  {
    [b.slot] + LeBytes(Pattern(b.trigger, 0x1_0000_0000), 4) +
    LeBytes(b.time / 0x100_0000 + 0x100_0000 * (b.time % 0x100_0000), 8) + LeBytes(|b.channels|, 4)
  }

  ghost function EncodeBlocks(bs: seq<Block>): seq<nat>
    requires forall i :: 0 <= i < |bs| ==> BlockOkay(bs[i])
  {
    if bs == [] then [] else EncodeHead(bs[0]) + EncodeChannels(bs[0].channels) + EncodeBlocks(bs[1..])
  }

  function AdcsOfChannels(b: Block, cs: seq<Channel>): seq<Adc> {
    if cs == [] then [] else [Adc(b.slot, b.trigger, b.time, cs[0].channel, cs[0].samples)] + AdcsOfChannels(b, cs[1..])
  }

  function AdcsOfBlocks(bs: seq<Block>): seq<Adc> {
    if bs == [] then [] else AdcsOfChannels(bs[0], bs[0].channels) + AdcsOfBlocks(bs[1..])
  }

  // ---- decoding inverts it ----

  ghost predicate Lies(mem: Memory, at: nat, s: seq<nat>) {
    forall i :: 0 <= i < |s| ==> mem(at + i) == s[i]
  }

  lemma LiesSplit(mem: Memory, at: nat, s: seq<nat>, t: seq<nat>)
    requires Lies(mem, at, s + t)
    ensures Lies(mem, at, s) && Lies(mem, at + |s|, t)
  {
    forall i | 0 <= i < |s|
      ensures mem(at + i) == s[i]
    {
      assert (s + t)[i] == s[i];
    }
    forall i | 0 <= i < |t|
      ensures mem(at + |s| + i) == t[i]
    {
      assert (s + t)[|s| + i] == t[i];
      assert at + (|s| + i) == at + |s| + i;
    }
  }

  /** The number of values of k bytes. */
  function Cap(k: nat): nat { if k == 0 then 1 else 256 * Cap(k - 1) }

  lemma {:induction false} LeReadsBack(mem: Memory, at: nat, v: nat, k: nat)
    requires v < Cap(k) && Lies(mem, at, LeBytes(v, k))
    ensures Le(mem, at, k) == v
    decreases k
  {
    if k > 0 {
      LiesSplit(mem, at, [v % 256], LeBytes(v / 256, k - 1));
      LeReadsBack(mem, at + 1, v / 256, k - 1);
      assert mem(at + 0) == [v % 256][0];
    }
  }

  lemma Caps()
    ensures Cap(2) == 0x1_0000 && Cap(4) == 0x1_0000_0000 && Cap(8) == 0x1_0000_0000_0000_0000
  {
    assert Cap(2) == 256 * Cap(1) && Cap(1) == 256;
    assert Cap(4) == 256 * Cap(3) && Cap(3) == 256 * Cap(2);
    assert Cap(8) == 256 * Cap(7) && Cap(7) == 256 * Cap(6) && Cap(6) == 256 * Cap(5) && Cap(5) == 256 * Cap(4);
  }

  lemma PatternReadsBack(x: int)
    ensures -0x8000 <= x < 0x8000 ==> Pattern(x, 0x1_0000) < 0x1_0000 && AsInt16(Pattern(x, 0x1_0000)) == x
    ensures -0x8000_0000 <= x < 0x8000_0000 ==>
              Pattern(x, 0x1_0000_0000) < 0x1_0000_0000 && AsInt32(Pattern(x, 0x1_0000_0000)) == x
  {
  }

  /** The halves change places, and what is above them is dropped. */
  lemma SwapIs(low: nat, high: nat, rest: nat)
    requires low < 0x100_0000 && high < 0x100_0000
    ensures SwapHalves(low + 0x100_0000 * high + 0x1_0000_0000_0000 * rest) == high + 0x100_0000 * low
  {
    var t := low + 0x100_0000 * high + 0x1_0000_0000_0000 * rest;
    assert t % 0x100_0000 == low && t / 0x100_0000 == high + 0x100_0000 * rest;
  }

  /** Exchanging the halves of a 48-bit time twice gives it back. */
  lemma SwapIsInvolution(t: nat)
    requires t < 0x1_0000_0000_0000
    ensures SwapHalves(t) < 0x1_0000_0000_0000 && SwapHalves(SwapHalves(t)) == t
  {
    var high, low := t / 0x100_0000, t % 0x100_0000;
    assert high < 0x100_0000;
    var s := SwapHalves(t);
    assert s == high + low * 0x100_0000;
    assert s / 0x100_0000 == low && s % 0x100_0000 == high;
  }

  lemma {:induction false} ShortsReadBack(mem: Memory, at: nat, s: seq<int>)
    requires forall i :: 0 <= i < |s| ==> -0x8000 <= s[i] < 0x8000
    requires Lies(mem, at, EncodeShorts(s))
    ensures ReadShorts(mem, at, |s|) == s
    decreases |s|
  {
    hide Le, LeBytes, Pattern, AsInt16;
    if s != [] {
      var v := Pattern(s[0], 0x1_0000);
      Caps();
      PatternReadsBack(s[0]);
      LiesSplit(mem, at, LeBytes(v, 2), EncodeShorts(s[1..]));
      LeReadsBack(mem, at, v, 2);
      ShortsReadBack(mem, at + 2, s[1..]);
    }
  }

  lemma ChannelReadsBack(mem: Memory, at: nat, c: Channel, h: BlockHead)
    requires ChannelOkay(c) && Lies(mem, at, EncodeChannel(c))
    ensures Le(mem, at + 1, 4) == |c.samples|
    ensures ReadChannel(mem, at, h).adc == Adc(h.slot, h.trigger, h.time, c.channel, c.samples)
  {
    hide Le, LeBytes, ReadShorts, EncodeShorts;
    Caps();
    LiesSplit(mem, at, [c.channel] + LeBytes(|c.samples|, 4), EncodeShorts(c.samples));
    LiesSplit(mem, at, [c.channel], LeBytes(|c.samples|, 4));
    assert mem(at + 0) == [c.channel][0];
    LeReadsBack(mem, at + 1, |c.samples|, 4);
    ShortsReadBack(mem, at + CHANNEL_HEADER, c.samples);
  }

  lemma HeadReadsBack(mem: Memory, at: nat, b: Block)
    requires BlockOkay(b) && Lies(mem, at, EncodeHead(b))
    ensures ReadHead(mem, at) == BlockHead(b.slot, b.trigger, b.time, |b.channels|)
  {
    hide Le, LeBytes, SwapHalves, Pattern, AsInt32;
    var trigger := Pattern(b.trigger, 0x1_0000_0000);
    var time := b.time / 0x100_0000 + 0x100_0000 * (b.time % 0x100_0000);
    Caps();
    PatternReadsBack(b.trigger);
    PatternReadsBack(|b.channels|);
    SwapIs(b.time / 0x100_0000, b.time % 0x100_0000, 0);
    LiesSplit(mem, at, [b.slot] + LeBytes(trigger, 4) + LeBytes(time, 8), LeBytes(|b.channels|, 4));
    LiesSplit(mem, at, [b.slot] + LeBytes(trigger, 4), LeBytes(time, 8));
    LiesSplit(mem, at, [b.slot], LeBytes(trigger, 4));
    assert mem(at + 0) == [b.slot][0];
    LeReadsBack(mem, at + 1, trigger, 4);
    LeReadsBack(mem, at + 5, time, 8);
    LeReadsBack(mem, at + 13, |b.channels|, 4);
    assert AsInt32(|b.channels|) == |b.channels| by { SmallIsItself(|b.channels|); }
  }

  lemma SmallIsItself(x: nat)
    requires x < 0x8000_0000
    ensures AsInt32(x) == x
  {
  }

  lemma {:induction false} ChannelsReadBack(mem: Memory, n: nat, at: nat, b: Block, h: BlockHead, cs: seq<Channel>)
    requires forall i :: 0 <= i < |cs| ==> ChannelOkay(cs[i])
    requires Lies(mem, at, EncodeChannels(cs)) && at + |EncodeChannels(cs)| <= n
    requires h.slot == b.slot && h.trigger == b.trigger && h.time == b.time
    ensures var r := Channels(mem, n, at, h, |cs|);
            AdcsOf(r.0) == AdcsOfChannels(b, cs) && r.1 == at + |EncodeChannels(cs)|
    decreases |cs|
  {
    hide Le, ReadChannel, EncodeChannel, ChannelOkay;
    if cs != [] {
      var c := cs[0];
      LiesSplit(mem, at, EncodeChannel(c), EncodeChannels(cs[1..]));
      ChannelReadsBack(mem, at, c, h);
      var next := at + CHANNEL_HEADER + 2 * |c.samples|;
      ChannelsReadBack(mem, n, next, b, h, cs[1..]);
      var rest := Channels(mem, n, next, h, |cs| - 1);
      var e := ReadChannel(mem, at, h);
      assert ([e] + rest.0)[1..] == rest.0;
    }
  }

  lemma {:induction false} AdcsConcat(a: seq<Emitted>, b: seq<Emitted>)
    ensures AdcsOf(a + b) == AdcsOf(a) + AdcsOf(b)
    decreases |a|
  {
    if a == [] {
      assert a + b == b;
    } else {
      assert (a + b)[1..] == a[1..] + b;
      AdcsConcat(a[1..], b);
    }
  }

  /** A header without a slot from 1 to 21 or a number of channels from 1 to 16 is passed over. */
  lemma OthersAreSkipped(mem: Memory, n: nat, offset: nat)
    requires offset < n && !(1 <= mem(offset) <= 21 && 1 <= Le(mem, offset + 13, 4) <= 16)
    ensures Blocks(mem, n, offset) == Blocks(mem, n, offset + 17)
  {
    LeBound(mem, offset + 13);
    hide Le, SwapHalves, Channels;
    HeadIs(mem, offset);
    hide ReadHead;
  }

  lemma HeadIs(mem: Memory, at: nat)
    requires Le(mem, at + 13, 4) < 0x1_0000_0000
    ensures ReadHead(mem, at).Skipped() <==> !(1 <= mem(at) <= 21 && 1 <= Le(mem, at + 13, 4) <= 16)
  {
    hide Le, SwapHalves;
  }

  lemma LeBound(mem: Memory, at: nat)
    ensures Le(mem, at, 4) < 0x1_0000_0000
  {
    assert Le(mem, at + 3, 1) < 0x100;
    assert Le(mem, at + 2, 2) < 0x1_0000;
    assert Le(mem, at + 1, 3) < 0x100_0000;
  }

  /** Zero bytes after the last block are skipped as headers of slot 0. */
  lemma {:induction false} ZerosAreSkipped(mem: Memory, n: nat, offset: nat)
    requires forall i :: offset <= i < n ==> mem(i) == 0
    ensures Blocks(mem, n, offset) == []
    decreases n - offset
  {
    hide Le;
    if offset < n {
      assert ReadHead(mem, offset).slot == 0;
      ZerosAreSkipped(mem, n, offset + BLOCK_HEADER);
    }
  }

  /** Decoding the bytes of any list of blocks, filled up with zeros to the end of the buffer, gives
      the channels of the blocks in order. */
  lemma {:induction false} BlocksReadBack(mem: Memory, n: nat, at: nat, bs: seq<Block>)
    requires forall i :: 0 <= i < |bs| ==> BlockOkay(bs[i])
    requires Lies(mem, at, EncodeBlocks(bs)) && at + |EncodeBlocks(bs)| <= n
    requires forall i :: at + |EncodeBlocks(bs)| <= i < n ==> mem(i) == 0
    ensures AdcsOf(Blocks(mem, n, at)) == AdcsOfBlocks(bs)
    decreases |bs|
  {
    hide ReadHead, EncodeHead, EncodeChannels, Channels;
    if bs == [] {
      ZerosAreSkipped(mem, n, at);
    } else {
      var b := bs[0];
      assert BlockOkay(b);
      LiesSplit(mem, at, EncodeHead(b) + EncodeChannels(b.channels), EncodeBlocks(bs[1..]));
      LiesSplit(mem, at, EncodeHead(b), EncodeChannels(b.channels));
      HeadReadsBack(mem, at, b);
      var h := ReadHead(mem, at);
      ChannelsReadBack(mem, n, at + BLOCK_HEADER, b, h, b.channels);
      var r := Channels(mem, n, at + BLOCK_HEADER, h, |b.channels|);
      BlocksReadBack(mem, n, r.1, bs[1..]);
      AdcsConcat(r.0, Blocks(mem, n, r.1));
    }
  }
}

/** The class: three nested loops over one moving offset. */
module CompositeDecoder {
  import opened CompositeFormat
  import opened CompositeProperties
  import opened PulseFormat
  import opened PulseProperties
  import opened Seqs

  class EvioCompositeDecoder {
    var adcSamples: seq<Adc>
    var adcSamplesPulse: seq<AdcPulse>

    constructor ()
      ensures adcSamples == [] && adcSamplesPulse == []
    {
      adcSamples, adcSamplesPulse := [], [];
    }

    /** Decodes a buffer of dataSize words. `emitted` says which bytes each entry came from. */
    method Decode(mem: Memory, dataSize: nat) returns (ghost emitted: seq<Emitted>)
      modifies this`adcSamples
      ensures emitted == Blocks(mem, 4 * dataSize, 0) && adcSamples == AdcsOf(emitted)
      ensures InOrder(emitted, 0, 4 * dataSize)
    {
      hide ReadHead, Channels;
      var n, offset := 4 * dataSize, 0;
      adcSamples := [];
      emitted := [];
      assert emitted + Blocks(mem, n, 0) == Blocks(mem, n, 0);
      while offset < n
        invariant adcSamples == AdcsOf(emitted)
        invariant emitted + Blocks(mem, n, offset) == Blocks(mem, n, 0)
        decreases n - offset
      {
        var h := ReadHead(mem, offset);
        offset := offset + BLOCK_HEADER;
        if h.Skipped() {
          continue;
        }
        ghost var r := Channels(mem, n, offset, h, h.nChannels);
        ghost var more := Blocks(mem, n, r.1);
        assert emitted + (r.0 + more) == (emitted + r.0) + more;
        AdcsConcat(emitted, r.0);
        offset := DecodeChannels(mem, n, offset, h);
        emitted := emitted + r.0;
      }
      assert emitted + [] == emitted;
      BlocksInOrder(mem, n, 0);
    }

    /** The innermost loop: two bytes a sample. */
    method DecodeSamples(mem: Memory, first: nat, samples: nat) returns (values: seq<int>, offset: nat)
      ensures values == ReadShorts(mem, first, samples) && offset == first + 2 * samples
    {
      hide Le, ReadShorts;
      values, offset := [], first;
      var loop := 0;
      assert values + ReadShorts(mem, first, samples) == ReadShorts(mem, first, samples);
      while loop < samples
        invariant 0 <= loop <= samples && offset == first + 2 * loop
        invariant values + ReadShorts(mem, offset, samples - loop) == ReadShorts(mem, first, samples)
      {
        OneShort(mem, offset, samples - loop);
        values := values + [AsInt16(Le(mem, offset, 2))];
        offset := offset + 2;
        loop := loop + 1;
      }
      OneShort(mem, offset, 0);
      assert values + [] == values;
    }

    method DecodeChannels(mem: Memory, n: nat, start: nat, h: BlockHead) returns (offset: nat)
      requires h.nChannels >= 0
      modifies this`adcSamples
      ensures adcSamples == old(adcSamples) + AdcsOf(Channels(mem, n, start, h, h.nChannels).0)
      ensures offset == Channels(mem, n, start, h, h.nChannels).1
    {
      hide Le, ReadShorts, Channels, AdcsOf;
      var nchannels := 0;
      offset := start;
      ghost var all := Channels(mem, n, start, h, h.nChannels);
      ghost var done: seq<Emitted> := [];
      NoAdcs();
      assert done + all.0 == all.0;
      while nchannels < h.nChannels
        invariant 0 <= nchannels <= h.nChannels
        invariant adcSamples == old(adcSamples) + AdcsOf(done)
        invariant var rest := Channels(mem, n, offset, h, h.nChannels - nchannels);
                  all.0 == done + rest.0 && all.1 == rest.1
      {
        var chan, samples := mem(offset), Le(mem, offset + 1, 4);
        OneChannel(mem, n, offset, h, h.nChannels - nchannels);
        ghost var e := ReadChannel(mem, offset, h);
        offset := offset + CHANNEL_HEADER;
        if offset + 2 * samples > n {
          assert done + [] == done;
          return;
        }
        var values;
        values, offset := DecodeSamples(mem, offset, samples);
        adcSamples := adcSamples + [Adc(h.slot, h.trigger, h.time, chan, values)];
        OneMoreAdc(done, e);
        assert (old(adcSamples) + AdcsOf(done)) + [e.adc] == old(adcSamples) + (AdcsOf(done) + [e.adc]);
        ghost var rest := Channels(mem, n, offset, h, h.nChannels - nchannels - 1);
        assert done + ([e] + rest.0) == (done + [e]) + rest.0;
        done := done + [e];
        nchannels := nchannels + 1;
      }
      OneChannel(mem, n, offset, h, 0);
      assert done + [] == done;
    }

    /** Decodes the pulse form of a buffer of dataSize words. */
    method DecodePulse(mem: Memory, dataSize: nat) returns (ghost emitted: seq<Region>)
      modifies this`adcSamplesPulse
      ensures emitted == PulseBlocks(mem, 4 * dataSize, 0) && adcSamplesPulse == AdcsOfRegions(emitted)
      ensures Passed(emitted, 1, 4 * dataSize)
    {
      hide ReadPulseHead, PulseChannels, AdcsOfRegions;
      var n, offset := 4 * dataSize, 0;
      adcSamplesPulse := [];
      emitted := [];
      NoRegions();
      while offset < n
        invariant adcSamplesPulse == AdcsOfRegions(emitted)
        invariant emitted + PulseBlocks(mem, n, offset) == PulseBlocks(mem, n, 0)
        decreases n - offset
      {
        var h := ReadPulseHead(mem, offset);
        offset := offset + BLOCK_HEADER;
        if h.Skipped() {
          continue;
        }
        ghost var r := PulseChannels(mem, n, offset, h, h.nChannels);
        Regroup(emitted, r.0, PulseBlocks(mem, n, r.1));
        RegionsConcat(emitted, r.0);
        offset := DecodePulseChannels(mem, n, offset, h);
        emitted := emitted + r.0;
      }
      assert emitted + [] == emitted;
      BlocksPass(mem, n, 0);
    }

    method DecodePulseChannels(mem: Memory, n: nat, start: nat, h: PulseHead) returns (offset: nat)
      requires h.nChannels >= 0
      modifies this`adcSamplesPulse
      ensures adcSamplesPulse ==
              old(adcSamplesPulse) + AdcsOfRegions(PulseChannels(mem, n, start, h, h.nChannels).0)
      ensures offset == PulseChannels(mem, n, start, h, h.nChannels).1
    {
      hide Le, ReadPulses, PulseChannels, AdcsOfRegions, CheckedEnd;
      var nchannels := 0;
      offset := start;
      ghost var all := PulseChannels(mem, n, start, h, h.nChannels);
      ghost var done: seq<Region> := [];
      NoRegions();
      while nchannels < h.nChannels
        invariant 0 <= nchannels <= h.nChannels
        invariant adcSamplesPulse == old(adcSamplesPulse) + AdcsOfRegions(done)
        invariant var rest := PulseChannels(mem, n, offset, h, h.nChannels - nchannels);
                  all.0 == done + rest.0 && all.1 == rest.1
      {
        var chan, samples := mem(offset), Le(mem, offset + 1, 4);
        OnePulseChannel(mem, n, offset, h, h.nChannels - nchannels);
        ghost var e := ReadRegion(mem, offset, h);
        offset := offset + CHANNEL_HEADER;
        if CheckedEnd(offset, samples) > n {
          assert done + [] == done;
          return;
        }
        var pulses;
        pulses, offset := DecodePulses(mem, offset, samples);
        adcSamplesPulse := adcSamplesPulse + [AdcPulse(h.slot, h.trigger, h.time, chan, pulses)];
        OneMoreRegion(done, e);
        Regroup(old(adcSamplesPulse), AdcsOfRegions(done), [e.adc]);
        Regroup(done, [e], PulseChannels(mem, n, offset, h, h.nChannels - nchannels - 1).0);
        done := done + [e];
        nchannels := nchannels + 1;
      }
      OnePulseChannel(mem, n, offset, h, 0);
      assert done + [] == done;
    }

    method DecodePulses(mem: Memory, first: nat, samples: nat) returns (pulses: seq<Pulse>, offset: nat)
      ensures pulses == ReadPulses(mem, first, samples) && offset == first + ENTRY * samples
    {
      hide ReadPulse, ReadPulses;
      pulses, offset := [], first;
      var loop := 0;
      assert pulses + ReadPulses(mem, first, samples) == ReadPulses(mem, first, samples);
      while loop < samples
        invariant 0 <= loop <= samples && offset == first + ENTRY * loop
        invariant pulses + ReadPulses(mem, offset, samples - loop) == ReadPulses(mem, first, samples)
      {
        OnePulse(mem, offset, samples - loop);
        Regroup(pulses, [ReadPulse(mem, offset)], ReadPulses(mem, offset + ENTRY, samples - loop - 1));
        pulses := pulses + [ReadPulse(mem, offset)];
        offset := offset + ENTRY;
        loop := loop + 1;
      }
      OnePulse(mem, offset, 0);
      assert pulses + [] == pulses;
    }
  }

  lemma OnePulse(mem: Memory, at: nat, n: nat)
    ensures ReadPulses(mem, at, n) == if n == 0 then [] else [ReadPulse(mem, at)] + ReadPulses(mem, at + ENTRY, n - 1)
  {
  }

  lemma OnePulseChannel(mem: Memory, n: nat, offset: nat, h: PulseHead, left: nat)
    ensures var pulses, data := Le(mem, offset + 1, 4), offset + CHANNEL_HEADER;
            PulseChannels(mem, n, offset, h, left) ==
            if left == 0 then ([], offset)
            else if CheckedEnd(data, pulses) > n then ([], data)
            else var rest := PulseChannels(mem, n, data + ENTRY * pulses, h, left - 1);
                 ([ReadRegion(mem, offset, h)] + rest.0, rest.1)
  {
  }

  lemma NoRegions()
    ensures AdcsOfRegions([]) == []
  {
  }

  lemma {:induction false} RegionsConcat(a: seq<Region>, b: seq<Region>)
    ensures AdcsOfRegions(a + b) == AdcsOfRegions(a) + AdcsOfRegions(b)
    decreases |a|
  {
    if a == [] {
      assert a + b == b;
    } else {
      assert (a + b)[1..] == a[1..] + b;
      RegionsConcat(a[1..], b);
    }
  }

  lemma OneMoreRegion(done: seq<Region>, e: Region)
    ensures AdcsOfRegions(done + [e]) == AdcsOfRegions(done) + [e.adc]
  {
    RegionsConcat(done, [e]);
    assert [e][1..] == [];
    assert AdcsOfRegions([e]) == [e.adc];
  }

  lemma OneChannel(mem: Memory, n: nat, offset: nat, h: BlockHead, left: nat)
    ensures var samples, data := Le(mem, offset + 1, 4), offset + CHANNEL_HEADER;
            Channels(mem, n, offset, h, left) ==
            if left == 0 then ([], offset)
            else if data + 2 * samples > n then ([], data)
            else var rest := Channels(mem, n, data + 2 * samples, h, left - 1);
                 ([ReadChannel(mem, offset, h)] + rest.0, rest.1)
  {
  }

  lemma NoAdcs()
    ensures AdcsOf([]) == []
  {
  }

  lemma OneMoreAdc(done: seq<Emitted>, e: Emitted)
    ensures AdcsOf(done + [e]) == AdcsOf(done) + [e.adc]
  {
    AdcsConcat(done, [e]);
    assert [e][1..] == [];
    assert AdcsOf([e]) == [e.adc];
  }

  lemma OneShort(mem: Memory, at: nat, n: nat)
    ensures ReadShorts(mem, at, n) == if n == 0 then [] else [AsInt16(Le(mem, at, 2))] + ReadShorts(mem, at + 2, n - 1)
  {
  }
}
