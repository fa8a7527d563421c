/** Decoding the trigger words of an event: trigger pairs, a separator, blocks of channel words. */
module Trigger {
  import opened Words

  type Word = bv32

  const N_TRIGGERS := 32
  const N_CHANNELS := 64
  const MAGIC: Word := 0xabcdabcd

  function NoFlags(): seq<bool> { seq(N_CHANNELS, _ => false) }

  /** The number that a word holds. */
  function Number(w: Word): (n: nat)
    ensures n < 0x1_0000_0000
  {
    w as nat
  }

  /** Two words joined and read as a signed 64-bit time. */
  function TimeOf(low: Word, high: Word): int {
    var t := Number(high) * 0x1_0000_0000 + Number(low);
    if t < 0x8000_0000_0000_0000 then t else t - 0x1_0000_0000_0000_0000
  }

  /** A word read as a signed time. */
  function AsInt(w: Word): int {
    if Number(w) < 0x8000_0000 then Number(w) else Number(w) - 0x1_0000_0000
  }

  // ---- the parts of the word list ----

  /** The number of pairs from pair i on before the first separator, counted from the start; all pairs
      when there is no separator. */
  function PairCount(words: seq<Word>, i: nat): (n: nat)
    requires i <= |words| / 2
    ensures i <= n <= |words| / 2
    ensures forall j :: i <= j < n ==> !(words[2 * j] == MAGIC && words[2 * j + 1] == MAGIC)
    ensures n < |words| / 2 ==> words[2 * n] == MAGIC && words[2 * n + 1] == MAGIC
    decreases |words| / 2 - i
  {
    if i == |words| / 2 || (words[2 * i] == MAGIC && words[2 * i + 1] == MAGIC) then i else PairCount(words, i + 1)
  }

  /** The start of the channel words, and how many whole blocks of four they are; the count of
      remaining words is negative without a separator and the division rounds it up to zero. */
  function BlocksStart(words: seq<Word>): nat { 2 * (PairCount(words, 0) + 1) }

  function BlockCount(words: seq<Word>): nat {
    if |words| < BlocksStart(words) then 0 else (|words| - BlocksStart(words)) / 4
  }

  datatype Block = Block(mask: bv64, time: int)

  function BlockAt(words: seq<Word>, j: nat): Block
    requires j < BlockCount(words)
  {
    var at := BlocksStart(words) + 4 * j;
    Block(Joined(words[at], words[at + 1]), TimeOf(words[at + 2], words[at + 3]))
  }

  // ---- what they mean ----

  /** The times of trigger kk in the first n pairs. */
  function TimesOf(words: seq<Word>, n: nat, kk: nat): seq<int>
    requires 2 * n <= |words| && kk < N_TRIGGERS
  {
    if n == 0 then []
    else TimesOf(words, n - 1, kk) + if Bit32(words[2 * n - 2], kk) then [AsInt(words[2 * n - 1])] else []
  }

  /** The set bits of a word below bit k. */
  function SetBits(w: Word, k: nat): nat
    requires k <= 32
  {
    if k == 0 then 0 else SetBits(w, k - 1) + if Bit32(w, k - 1) then 1 else 0
  }

  /** The set bits of the first words of n pairs. */
  function AllSetBits(words: seq<Word>, n: nat): nat
    requires 2 * n <= |words|
  {
    if n == 0 then 0 else AllSetBits(words, n - 1) + SetBits(words[2 * n - 2], 32)
  }

  /** The number of recorded times of the triggers below kk. */
  function TimesTotal(times: seq<seq<int>>, kk: nat): nat
    requires kk <= |times|
  {
    if kk == 0 then 0 else TimesTotal(times, kk - 1) + |times[kk - 1]|
  }

  /** The bitwise OR of the masks of the first n blocks, or of those whose time is in the window. */
  function OrOfMasks(words: seq<Word>, n: nat): bv64
    requires n <= BlockCount(words)
  {
    if n == 0 then 0 else Or(OrOfMasks(words, n - 1), BlockAt(words, n - 1).mask)
  }

  function OrInWindow(words: seq<Word>, n: nat, tmin: int, tmax: int): bv64
    requires n <= BlockCount(words)
  {
    if n == 0 then 0
    else
      var b := BlockAt(words, n - 1);
      var rest := OrInWindow(words, n - 1, tmin, tmax);
      if tmin <= b.time <= tmax then Or(rest, b.mask) else rest
  }

  /** A channel is in the OR exactly when some block has it. */
  lemma {:induction false} OrHasBitExactlyWhen(words: seq<Word>, n: nat, tmin: int, tmax: int, k: nat)
    requires n <= BlockCount(words) && k < N_CHANNELS
    ensures Bit64(OrOfMasks(words, n), k) <==> exists j :: 0 <= j < n && Bit64(BlockAt(words, j).mask, k)
    ensures Bit64(OrInWindow(words, n, tmin, tmax), k) <==>
            exists j :: 0 <= j < n && Bit64(BlockAt(words, j).mask, k) && tmin <= BlockAt(words, j).time <= tmax
  {
    hide BlockAt, Bit64, Or;
    NoBit(k);
    if n > 0 {
      OrHasBitExactlyWhen(words, n - 1, tmin, tmax, k);
      OrBit(OrOfMasks(words, n - 1), BlockAt(words, n - 1).mask, k);
      OrBit(OrInWindow(words, n - 1, tmin, tmax), BlockAt(words, n - 1).mask, k);
    }
  }

  /** The bits of a block's mask are those of its first two words. */
  lemma MaskHasBitExactlyWhen(words: seq<Word>, j: nat, k: nat)
    requires j < BlockCount(words) && k < N_CHANNELS
    ensures var at := BlocksStart(words) + 4 * j;
            Bit64(BlockAt(words, j).mask, k) <==> if k < 32 then Bit32(words[at], k) else Bit32(words[at + 1], k - 32)
  {
    var at := BlocksStart(words) + 4 * j;
    hide Bit64, Bit32, Joined;
    JoinedBit(words[at], words[at + 1], k);
  }

  /** Without a separator, and with fewer than four words behind it, no channel is set. */
  lemma NoChannelsExactlyWhen(words: seq<Word>)
    ensures BlockCount(words) == 0 <==> PairCount(words, 0) == |words| / 2 || |words| < BlocksStart(words) + 4
  {
  }

  // ---- the same, over the words of the list ----

  /** The first place where two words of an even position are both 0xabcdabcd. */
  predicate FirstSeparator(words: seq<Word>, p: nat) {
    && p < |words| / 2 && words[2 * p] == 0xabcdabcd && words[2 * p + 1] == 0xabcdabcd
    && forall i :: 0 <= i < p ==> words[2 * i] != 0xabcdabcd || words[2 * i + 1] != 0xabcdabcd
  }

  predicate NoSeparator(words: seq<Word>) {
    forall i :: 0 <= i < |words| / 2 ==> words[2 * i] != 0xabcdabcd || words[2 * i + 1] != 0xabcdabcd
  }

  /** t is the n-bit pattern u read as a signed number, where n bits make `range` patterns. */
  predicate Signed(u: int, range: int, t: int) {
    (t == u || t == u - range) && -range <= 2 * t < range
  }

  /** t is the signed 64-bit number with these halves. */
  predicate SignedLong(low: Word, high: Word, t: int) {
    Signed(Number(low) + 0x1_0000_0000 * Number(high), 0x1_0000_0000_0000_0000, t)
  }

  /** The time of two words, and its value where the high word is all zeros or all ones. */
  lemma TimeIs(low: Word, high: Word, t: int)
    ensures t == TimeOf(low, high) <==> SignedLong(low, high, t)
    ensures Number(high) == 0 ==> TimeOf(low, high) == Number(low)
    ensures Number(high) == 0xffff_ffff ==> TimeOf(low, high) == Number(low) - 0x1_0000_0000
  {
    hide Number;
  }

  lemma AsIntIs(w: Word, t: int)
    ensures t == AsInt(w) <==> Signed(Number(w), 0x1_0000_0000, t)
  {
    hide Number;
  }

  lemma {:induction false} PairCountIs(words: seq<Word>, i: nat, p: nat)
    requires i <= |words| / 2 && p == PairCount(words, i)
    requires forall j :: 0 <= j < i ==> words[2 * j] != 0xabcdabcd || words[2 * j + 1] != 0xabcdabcd
    ensures if p < |words| / 2 then FirstSeparator(words, p) else NoSeparator(words)
  {
    assert forall j :: 0 <= j < p ==> words[2 * j] != 0xabcdabcd || words[2 * j + 1] != 0xabcdabcd;
  }

  /** Bit k of a block's first two words, of 32 bits each. */
  predicate MaskBit(words: seq<Word>, at: nat, k: nat)
    requires at + 1 < |words| && k < 64
  {
    if k < 32 then Bit32(words[at], k) else Bit32(words[at + 1], k - 32)
  }

  /** Block j behind the separator at pair p has channel k. */
  predicate HasChannel(words: seq<Word>, p: nat, j: nat, k: nat)
    requires k < 64
  {
    2 * p + 4 * j + 6 <= |words| && MaskBit(words, 2 * p + 4 * j + 2, k)
  }

  /** The time in the last two words of block j lies in the window. */
  ghost predicate InWindow(words: seq<Word>, p: nat, j: nat, tmin: int, tmax: int)
    requires 2 * p + 4 * j + 6 <= |words|
  {
    TimeWithin(words[2 * p + 4 * j + 4], words[2 * p + 4 * j + 5], tmin, tmax)
  }

  ghost predicate TimeWithin(low: Word, high: Word, tmin: int, tmax: int) {
    exists t :: SignedLong(low, high, t) && tmin <= t <= tmax
  }

  lemma TimeWithinIs(low: Word, high: Word, tmin: int, tmax: int)
    ensures TimeWithin(low, high, tmin, tmax) <==> tmin <= TimeOf(low, high) <= tmax
  {
    TimeIs(low, high, TimeOf(low, high));
    hide TimeOf, SignedLong;
    if TimeWithin(low, high, tmin, tmax) {
      var t :| SignedLong(low, high, t) && tmin <= t <= tmax;
      TimeIs(low, high, t);
    }
  }

  lemma BlockIs(words: seq<Word>, p: nat, j: nat, k: nat, tmin: int, tmax: int)
    requires FirstSeparator(words, p) && k < 64
    ensures j < BlockCount(words) <==> 2 * p + 4 * j + 6 <= |words|
    ensures j < BlockCount(words) ==>
              && (Bit64(BlockAt(words, j).mask, k) <==> HasChannel(words, p, j, k))
              && (tmin <= BlockAt(words, j).time <= tmax <==> InWindow(words, p, j, tmin, tmax))
  {
    hide Bit64, Bit32, Joined, TimeOf, TimeWithin;
    SeparatorIsUnique(words, p, PairCount(words, 0));
    if j < BlockCount(words) {
      MaskHasBitExactlyWhen(words, j, k);
      TimeWithinIs(words[2 * p + 4 * j + 4], words[2 * p + 4 * j + 5], tmin, tmax);
    }
  }

  lemma SeparatorIsUnique(words: seq<Word>, p: nat, q: nat)
    requires FirstSeparator(words, p) && q == PairCount(words, 0)
    ensures p == q
  {
    PairCountIs(words, 0, q);
  }

  /** Some block behind the separator has the channel; or one that also has its time in the window. */
  ghost predicate ChannelFires(words: seq<Word>, p: nat, k: nat)
    requires k < 64
  {
    exists j: nat :: HasChannel(words, p, j, k)
  }

  ghost predicate ChannelFiresWithin(words: seq<Word>, p: nat, k: nat, tmin: int, tmax: int)
    requires k < 64
  {
    exists j: nat :: HasChannel(words, p, j, k) && InWindow(words, p, j, tmin, tmax)
  }

  /** With a separator, channel k is in the OR of all masks exactly when some block behind it has the
      channel, and in that of the window exactly when such a block has its time there. */
  lemma ChannelsInWords(words: seq<Word>, p: nat, tmin: int, tmax: int, k: nat)
    requires FirstSeparator(words, p) && k < 64
    ensures Bit64(OrOfMasks(words, BlockCount(words)), k) <==> ChannelFires(words, p, k)
    ensures Bit64(OrInWindow(words, BlockCount(words), tmin, tmax), k) <==> ChannelFiresWithin(words, p, k, tmin, tmax)
  {
    hide Bit64, BlockAt, BlockCount, OrOfMasks, OrInWindow, FirstSeparator, InWindow, MaskBit;
    var n := BlockCount(words);
    OrHasBitExactlyWhen(words, n, tmin, tmax, k);
    forall j: nat
      ensures j < n <==> 2 * p + 4 * j + 6 <= |words|
      ensures j < n ==>
                && (Bit64(BlockAt(words, j).mask, k) <==> HasChannel(words, p, j, k))
                && (tmin <= BlockAt(words, j).time <= tmax <==> InWindow(words, p, j, tmin, tmax))
    {
      BlockIs(words, p, j, k, tmin, tmax);
    }
  }

  /** Without a separator no channel is set. */
  lemma NoSeparatorNoChannels(words: seq<Word>, tmin: int, tmax: int)
    requires NoSeparator(words)
    ensures OrOfMasks(words, BlockCount(words)) == 0 && OrInWindow(words, BlockCount(words), tmin, tmax) == 0
  {
    PairCountIs(words, 0, PairCount(words, 0));
  }

  /** The flags that the words behind the first separator call for; none without a separator. */
  ghost predicate FlagsAreRight(words: seq<Word>, tmin: int, tmax: int, channels: seq<bool>, trg: seq<bool>) {
    && |channels| == |trg| == 64
    && (forall p: nat, k: nat :: FirstSeparator(words, p) && k < 64 ==>
          (channels[k] <==> ChannelFires(words, p, k)) && (trg[k] <==> ChannelFiresWithin(words, p, k, tmin, tmax)))
    && (NoSeparator(words) ==> forall k: nat :: k < 64 ==> !channels[k] && !trg[k])
  }

  lemma FlagsInWords(words: seq<Word>, tmin: int, tmax: int, channels: seq<bool>, trg: seq<bool>)
    requires FlagsOf(OrOfMasks(words, BlockCount(words)), channels)
    requires FlagsOf(OrInWindow(words, BlockCount(words), tmin, tmax), trg)
    ensures FlagsAreRight(words, tmin, tmax, channels, trg)
  {
    hide Bit64, BlockCount, OrOfMasks, OrInWindow, FirstSeparator, ChannelFires, ChannelFiresWithin, NoSeparator;
    forall p: nat, k: nat | FirstSeparator(words, p) && k < 64
      ensures channels[k] <==> ChannelFires(words, p, k)
      ensures trg[k] <==> ChannelFiresWithin(words, p, k, tmin, tmax)
    {
      ChannelsInWords(words, p, tmin, tmax, k);
    }
    if NoSeparator(words) {
      NoSeparatorNoChannels(words, tmin, tmax);
      forall k: nat | k < 64
        ensures !channels[k] && !trg[k]
      {
        NoBit(k);
      }
    }
  }

  /** The times recorded for a trigger are the signed second words of the pairs that have its bit. */
  lemma {:induction false} TimesInWords(words: seq<Word>, n: nat, kk: nat, t: int)
    requires 2 * n <= |words| && kk < N_TRIGGERS
    ensures t in TimesOf(words, n, kk) <==>
            exists i :: 0 <= i < n && Bit32(words[2 * i], kk) && Signed(Number(words[2 * i + 1]), 0x1_0000_0000, t)
  {
    hide Bit32, AsInt, Signed;
    if n > 0 {
      TimesInWords(words, n - 1, kk, t);
      AsIntIs(words[2 * n - 1], t);
      assert words[2 * (n - 1)] == words[2 * n - 2] && words[2 * (n - 1) + 1] == words[2 * n - 1];
    }
  }

  /** Two pairs of triggers 0 and 1, a separator, and two blocks with channels 0 and 33, the second one
      at time -17: outside the window from -16 to 16. */
  lemma WordsExample(words: seq<Word>)
    requires words == [3, 5, 2, 0xffff_ffff, 0xabcd_abcd, 0xabcd_abcd, 1, 0, 5, 0, 0, 2, 0xffff_ffef, 0xffff_ffff]
    ensures PairCount(words, 0) == 2 && TimesOf(words, 2, 0) == [5] && TimesOf(words, 2, 1) == [5, -1]
    ensures OrOfMasks(words, BlockCount(words)) == 0x2_0000_0001
    ensures OrInWindow(words, BlockCount(words), -16, 16) == 1
    ensures OrInWindow(words, BlockCount(words), -17, 16) == 0x2_0000_0001
  {
    hide TimesOf, OrOfMasks, OrInWindow;
    assert PairCount(words, 2) == 2;
    assert PairCount(words, 1) == 2;
    ExampleTimes(words);
    ExampleBlocks(words);
  }

  lemma ExampleTimes(words: seq<Word>)
    requires |words| == 14 && words[0] == 3 && words[1] == 5 && words[2] == 2 && words[3] == 0xffff_ffff
    ensures TimesOf(words, 2, 0) == [5] && TimesOf(words, 2, 1) == [5, -1]
  {
    assert Bit32(3, 0) && Bit32(3, 1) && !Bit32(2, 0) && Bit32(2, 1);
    assert AsInt(5) == 5 && AsInt(0xffff_ffff) == -1;
    hide Bit32, AsInt;
    assert TimesOf(words, 0, 0) == [] && TimesOf(words, 0, 1) == [];
    assert TimesOf(words, 1, 0) == [5] && TimesOf(words, 1, 1) == [5];
    assert TimesOf(words, 2, 0) == TimesOf(words, 1, 0) + [];
  }

  lemma ExampleBlocks(words: seq<Word>)
    requires |words| == 14 && PairCount(words, 0) == 2
    requires words[6..] == [1, 0, 5, 0, 0, 2, 0xffff_ffef, 0xffff_ffff]
    ensures OrOfMasks(words, BlockCount(words)) == 0x2_0000_0001
    ensures OrInWindow(words, BlockCount(words), -16, 16) == 1
    ensures OrInWindow(words, BlockCount(words), -17, 16) == 0x2_0000_0001
  {
    assert Joined(1, 0) == 1 && Joined(0, 2) == 0x2_0000_0000 && TimeOf(5, 0) == 5;
    assert TimeOf(0xffff_ffef, 0xffff_ffff) == -17;
    assert Or(0, 1) == 1 && Or(1, 0x2_0000_0000) == 0x2_0000_0001;
    hide Joined, TimeOf, Or;
    var rest := words[6..];
    assert words[6] == rest[0] && words[7] == rest[1] && words[8] == rest[2] && words[9] == rest[3];
    assert words[10] == rest[4] && words[11] == rest[5] && words[12] == rest[6] && words[13] == rest[7];
    assert BlockAt(words, 0) == Block(1, 5) && BlockAt(words, 1) == Block(0x2_0000_0000, -17);
    hide BlockAt;
    assert BlockCount(words) == 2;
    assert OrOfMasks(words, 0) == 0 && OrOfMasks(words, 1) == 1 && OrOfMasks(words, 2) == 0x2_0000_0001;
    assert OrInWindow(words, 0, -16, 16) == 0 && OrInWindow(words, 1, -16, 16) == 1;
    assert OrInWindow(words, 2, -16, 16) == 1;
    assert OrInWindow(words, 0, -17, 16) == 0 && OrInWindow(words, 1, -17, 16) == 1;
    assert OrInWindow(words, 2, -17, 16) == 0x2_0000_0001;
  }

  // ---- the decoder ----

  datatype TriggerData = TriggerData(nTriggers: nat, trgTimes: seq<seq<int>>,
                                       channels: seq<bool>, channelsTRG: seq<bool>)

  /** One trigger word: each set bit is a trigger with the time of its pair. */
  method OnePair(words: seq<Word>, ii: nat, nTriggers0: nat, times0: seq<seq<int>>)
    returns (nTriggers: nat, times: seq<seq<int>>)
    requires 2 * ii + 1 < |words| && |times0| == N_TRIGGERS
    requires forall t :: 0 <= t < N_TRIGGERS ==> times0[t] == TimesOf(words, ii, t)
    ensures |times| == N_TRIGGERS && forall t :: 0 <= t < N_TRIGGERS ==> times[t] == TimesOf(words, ii + 1, t)
    ensures nTriggers == nTriggers0 + SetBits(words[2 * ii], 32)
    ensures TimesTotal(times, N_TRIGGERS) == TimesTotal(times0, N_TRIGGERS) + SetBits(words[2 * ii], 32)
  {
    hide Bit32, AsInt;
    nTriggers, times := nTriggers0, times0;
    var word1, word2 := words[2 * ii], words[2 * ii + 1];
    var kk := 0;
    while kk < N_TRIGGERS
      invariant 0 <= kk <= N_TRIGGERS && |times| == N_TRIGGERS
      invariant forall t :: 0 <= t < kk ==> times[t] == TimesOf(words, ii + 1, t)
      invariant forall t :: kk <= t < N_TRIGGERS ==> times[t] == TimesOf(words, ii, t)
      invariant nTriggers == nTriggers0 + SetBits(word1, kk)
      invariant TimesTotal(times, N_TRIGGERS) == TimesTotal(times0, N_TRIGGERS) + SetBits(word1, kk)
    {
      if Bit32(word1, kk) {
        nTriggers := nTriggers + 1;
        OneMoreTime(times, kk, AsInt(word2), N_TRIGGERS);
        times := times[kk := times[kk] + [AsInt(word2)]];
      }
      kk := kk + 1;
    }
  }

  lemma {:induction false} OneMoreTime(times: seq<seq<int>>, kk: nat, t: int, n: nat)
    requires kk < |times| && n <= |times|
    ensures TimesTotal(times[kk := times[kk] + [t]], n) == TimesTotal(times, n) + if kk < n then 1 else 0
  {
    if n > 0 {
      OneMoreTime(times, kk, t, n - 1);
    }
  }

  lemma {:induction false} NoTimes(times: seq<seq<int>>, n: nat)
    requires n <= |times| && forall t :: 0 <= t < n ==> times[t] == []
    ensures TimesTotal(times, n) == 0
  {
    if n > 0 {
      NoTimes(times, n - 1);
    }
  }

  /** The pairs up to the separator. */
  method Pairs(words: seq<Word>) returns (ii: nat, nTriggers: nat, times: seq<seq<int>>)
    ensures ii == PairCount(words, 0) && |times| == N_TRIGGERS
    ensures forall t :: 0 <= t < N_TRIGGERS ==> times[t] == TimesOf(words, ii, t)
    ensures nTriggers == AllSetBits(words, ii) == TimesTotal(times, N_TRIGGERS)
  {
    hide Bit32, AsInt, SetBits, TimesTotal;
    ii, nTriggers, times := 0, 0, seq(N_TRIGGERS, _ => []);
    NoTimes(times, N_TRIGGERS);
    while ii < |words| / 2 && !(words[2 * ii] == MAGIC && words[2 * ii + 1] == MAGIC)
      invariant 0 <= ii <= |words| / 2 && |times| == N_TRIGGERS
      invariant PairCount(words, ii) == PairCount(words, 0)
      invariant forall t :: 0 <= t < N_TRIGGERS ==> times[t] == TimesOf(words, ii, t)
      invariant nTriggers == AllSetBits(words, ii) == TimesTotal(times, N_TRIGGERS)
    {
      nTriggers, times := OnePair(words, ii, nTriggers, times);
      ii := ii + 1;
    }
  }

  /** The flags are the bits of a word. */
  ghost predicate FlagsOf(w: bv64, flags: seq<bool>) {
    |flags| == N_CHANNELS && forall k: nat :: k < N_CHANNELS ==> (flags[k] <==> Bit64(w, k))
  }

  /** One block of channel words: sets the flags of the channels in its mask. `all` and `window` are
      the words of the flags so far. */
  method OneBlock(b: Block, tmin: int, tmax: int, ghost all: bv64, ghost window: bv64,
                  channels0: seq<bool>, trg0: seq<bool>)
    returns (channels: seq<bool>, trg: seq<bool>)
    requires FlagsOf(all, channels0) && FlagsOf(window, trg0)
    ensures FlagsOf(Or(all, b.mask), channels)
    ensures FlagsOf(if tmin <= b.time <= tmax then Or(window, b.mask) else window, trg)
  {
    hide Bit64, Or, And, One;
    channels, trg := channels0, trg0;
    var kk := 0;
    while kk < N_CHANNELS
      invariant 0 <= kk <= N_CHANNELS && |channels| == |trg| == N_CHANNELS
      invariant forall c :: 0 <= c < N_CHANNELS ==> channels[c] == (channels0[c] || (c < kk && Bit64(b.mask, c)))
      invariant forall c :: 0 <= c < N_CHANNELS ==>
                  trg[c] == (trg0[c] || (c < kk && Bit64(b.mask, c) && tmin <= b.time <= tmax))
    {
      TestBit(b.mask, kk);
      if And(b.mask, One(kk)) != 0 {
        channels := channels[kk := true];
        if tmin <= b.time && b.time <= tmax {
          trg := trg[kk := true];
        }
      }
      kk := kk + 1;
    }
    forall k: nat | k < N_CHANNELS
      ensures channels[k] <==> Bit64(Or(all, b.mask), k)
      ensures tmin <= b.time <= tmax ==> (trg[k] <==> Bit64(Or(window, b.mask), k))
    {
      OrBit(all, b.mask, k);
      OrBit(window, b.mask, k);
    }
  }

  /** The whole event: the trigger count is the number of set bits before the separator and also the
      number of recorded times; a channel flag is its bit in the OR of the masks behind the separator,
      and its trigger flag the same over the blocks inside the time window. */
  method Evnt(words: seq<Word>, tmin: int, tmax: int) returns (d: TriggerData)
    ensures |d.trgTimes| == N_TRIGGERS
    ensures forall t :: 0 <= t < N_TRIGGERS ==> d.trgTimes[t] == TimesOf(words, PairCount(words, 0), t)
    ensures d.nTriggers == AllSetBits(words, PairCount(words, 0)) == TimesTotal(d.trgTimes, N_TRIGGERS)
    ensures FlagsOf(OrOfMasks(words, BlockCount(words)), d.channels)
    ensures FlagsOf(OrInWindow(words, BlockCount(words), tmin, tmax), d.channelsTRG)
    ensures FlagsAreRight(words, tmin, tmax, d.channels, d.channelsTRG)
  {
    hide FlagsAreRight, TimesOf, AllSetBits, TimesTotal, Or, Joined, TimeOf, Bit64;
    var ii, nTriggers, times := Pairs(words);
    ii := ii + 1;
    var nwords := if |words| >= 2 * ii then (|words| - 2 * ii) / 4 else 0;
    var channels, trg := NoFlags(), NoFlags();
    NoFlagsAreZero();
    var jj := 0;
    while jj < nwords
      invariant 0 <= jj <= nwords
      invariant FlagsOf(OrOfMasks(words, jj), channels) && FlagsOf(OrInWindow(words, jj, tmin, tmax), trg)
    {
      var at := ii * 2 + jj * 4;
      var b := Block(Joined(words[at], words[at + 1]), TimeOf(words[at + 2], words[at + 3]));
      assert b == BlockAt(words, jj);
      ghost var all, window := OrOfMasks(words, jj), OrInWindow(words, jj, tmin, tmax);
      channels, trg := OneBlock(b, tmin, tmax, all, window, channels, trg);
      jj := jj + 1;
    }
    FlagsInWords(words, tmin, tmax, channels, trg);
    d := TriggerData(nTriggers, times, channels, trg);
  }

  /** getLongWordChannels: the word whose bits are the channel flags. */
  method LongWord(channels: seq<bool>) returns (ret: bv64)
    requires |channels| == N_CHANNELS
    ensures FlagsOf(ret, channels)
  {
    hide Bit64, Or, One;
    ret := 0;
    var ii := 0;
    NoFlagsAreZero();
    while ii < N_CHANNELS
      invariant 0 <= ii <= N_CHANNELS
      invariant forall k: nat :: k < N_CHANNELS ==> (Bit64(ret, k) <==> k < ii && channels[k])
    {
      if channels[ii] {
        ghost var before := ret;
        ret := Or(ret, One(ii));
        forall k: nat | k < N_CHANNELS
          ensures Bit64(ret, k) <==> Bit64(before, k) || k == ii
        {
          OrBit(before, One(ii), k);
          OneBit(ii, k);
        }
      }
      ii := ii + 1;
    }
  }

  lemma NoBit(k: nat)
    requires k < N_CHANNELS
    ensures !Bit64(0, k)
  {
  }

  lemma NoFlagsAreZero()
    ensures FlagsOf(0, NoFlags())
  {
    hide Bit64;
    forall k: nat | k < N_CHANNELS
      ensures !Bit64(0, k)
    {
      NoBit(k);
    }
  }

  /** The flags determine the word. */
  lemma FlagsDetermineWord(v: bv64, w: bv64, flags: seq<bool>)
    requires FlagsOf(v, flags) && FlagsOf(w, flags)
    ensures v == w
  {
    hide Bit64;
    SameBits(v, w);
  }

  /** The long words of an event are the ORs of its masks. */
  method LongWordsOf(words: seq<Word>, tmin: int, tmax: int) returns (all: bv64, trg: bv64)
    ensures all == OrOfMasks(words, BlockCount(words))
    ensures trg == OrInWindow(words, BlockCount(words), tmin, tmax)
    ensures forall p: nat, k: nat :: FirstSeparator(words, p) && k < 64 ==>
              && (Bit64(all, k) <==> ChannelFires(words, p, k))
              && (Bit64(trg, k) <==> ChannelFiresWithin(words, p, k, tmin, tmax))
    ensures NoSeparator(words) ==> all == 0 && trg == 0
  {
    hide Bit64, FirstSeparator, NoSeparator, ChannelFires, ChannelFiresWithin, OrOfMasks, OrInWindow, BlockCount;
    var d := Evnt(words, tmin, tmax);
    all := LongWord(d.channels);
    trg := LongWord(d.channelsTRG);
    if NoSeparator(words) {
      NoSeparatorNoChannels(words, tmin, tmax);
    }
    FlagsDetermineWord(all, OrOfMasks(words, BlockCount(words)), d.channels);
    FlagsDetermineWord(trg, OrInWindow(words, BlockCount(words), tmin, tmax), d.channelsTRG);
  }
}
