/** Numbered bytes of the headers: where each field lies, byte by byte. */
module PtLayout {
  import opened Arith
  import opened BitFields
  import opened PtFormat
  import opened PtParse
  import opened TimeStamp

  /** The number that bytes hold, lowest byte first. */
  function Number(s: seq<nat>): (n: nat)
  {
    if s == [] then 0 else s[0] + 256 * Number(s[1..])
  }

  lemma {:induction false} PackIsNumber(s: seq<nat>)
    ensures Pack(s, Bytes(|s|)) == Number(s)
  {
    if s != [] {
      PackIsNumber(s[1..]);
      assert Bytes(|s|)[1..] == Bytes(|s[1..]|) && Pow2(8) == 256;
    }
  }

  lemma {:induction false} NumberBound(s: seq<nat>)
    requires AllBytes(s)
    ensures Number(s) < Pow2(8 * |s|)
  {
    if s != [] {
      NumberBound(s[1..]);
      Pow2Adds(8, 8 * |s[1..]|);
      assert Pow2(8) == 256;
    }
  }

  lemma {:induction false} NumberConcat(u: seq<nat>, v: seq<nat>)
    ensures Number(u + v) == Number(u) + Pow2(8 * |u|) * Number(v)
  {
    if u == [] {
      assert u + v == v;
    } else {
      NumberConcat(u[1..], v);
      assert (u + v)[1..] == u[1..] + v;
      Pow2Adds(8, 8 * |u[1..]|);
      assert Pow2(8) == 256;
      MulAssociates(256, Pow2(8 * |u[1..]|), Number(v));
    }
  }

  /** A field is the number shifted down by the widths before it and cut to its own width. */
  lemma {:induction false} UnpackAt(n: nat, ws: seq<nat>, i: nat)
    requires i < |ws|
    ensures Unpack(n, ws)[i] == n / Pow2(Sum(ws[..i])) % Pow2(ws[i])
    decreases |ws|
  {
    QuotientIsNat(n, Pow2(ws[0]));
    if i == 0 {
      assert ws[..0] == [];
    } else {
      UnpackAt(n / Pow2(ws[0]), ws[1..], i - 1);
      assert ws[..i] == [ws[0]] + ws[1..][..i - 1];
      assert ws[..i][1..] == ws[1..][..i - 1];
      Pow2Adds(ws[0], Sum(ws[1..][..i - 1]));
      DivideTwice(n, Pow2(ws[0]), Pow2(Sum(ws[1..][..i - 1])));
    }
  }

  /** Adding multiples of p changes the quotient by p by as many. */
  lemma AddMultiple(x: nat, p: nat, y: nat)
    requires p > 0
    ensures (x + p * y) / p == x / p + y && (x + p * y) % p == x % p
  {
    QuotientIsNat(x, p);
    assert p * (x / p + y) == p * (x / p) + p * y;
    QuotientIs(x + p * y, p, x / p + y, x % p);
  }

  /** Bits a to a + w of a number are in its low bits when these are wide enough. */
  lemma LowBits(x: nat, y: nat, low: nat, a: nat, w: nat)
    requires a + w <= low
    ensures (x + Pow2(low) * y) / Pow2(a) % Pow2(w) == x / Pow2(a) % Pow2(w)
  {
    hide Pow2;
    var p, q, r := Pow2(a), Pow2(w), Pow2(low - a - w);
    Pow2Adds(a, low - a);
    Pow2Adds(w, low - a - w);
    MulAssociates(p, q * r, y);
    MulAssociates(q, r, y);
    ProductIsNat(r, y);
    ProductIsNat(q, r * y);
    AddMultiple(x, p, q * (r * y));
    QuotientIsNat(x, p);
    AddMultiple(x / p, q, r * y);
  }

  lemma ProductIsNat(a: nat, b: nat)
    ensures a * b >= 0
  {
  }

  /** A field that starts at bit a of byte b and ends within k bytes. */
  lemma FieldAt(s: seq<nat>, ws: seq<nat>, i: nat, b: nat, k: nat, a: nat)
    requires AllBytes(s) && i < |ws| && Sum(ws[..i]) == 8 * b + a && a + ws[i] <= 8 * k && b + k <= |s|
    ensures Decode(s, ws)[i] == Number(s[b..b + k]) / Pow2(a) % Pow2(ws[i])
  {
    var u, m, v := s[..b], s[b..b + k], s[b + k..];
    assert s == u + (m + v);
    PackIsNumber(s);
    UnpackAt(Number(s), ws, i);
    NumberBound(u);
    NumberConcat(u, m + v);
    NumberConcat(m, v);
    Pow2Adds(8 * b, a);
    QuotientIs(Number(s), Pow2(8 * b), Number(m + v), Number(u));
    DivideTwice(Number(s), Pow2(8 * b), Pow2(a));
    LowBits(Number(m), Number(v), 8 * k, a, ws[i]);
  }

  /** A field of k whole bytes. */
  lemma BytesAt(s: seq<nat>, ws: seq<nat>, i: nat, b: nat, k: nat)
    requires AllBytes(s) && i < |ws| && Sum(ws[..i]) == 8 * b && ws[i] == 8 * k && b + k <= |s|
    ensures Decode(s, ws)[i] == Number(s[b..b + k])
  {
    FieldAt(s, ws, i, b, k, 0);
    NumberBound(s[b..b + k]);
    QuotientIs(Number(s[b..b + k]), Pow2(8 * k), 0, Number(s[b..b + k]));
    assert Pow2(0) == 1;
  }

  lemma SumNext(ws: seq<nat>, i: nat)
    requires i < |ws|
    ensures Sum(ws[..i + 1]) == Sum(ws[..i]) + ws[i]
  {
    assert ws[..i + 1] == ws[..i] + [ws[i]] && [ws[i]][1..] == [];
    SumConcat(ws[..i], [ws[i]]);
  }

  lemma Powers()
    ensures Pow2(0) == 1 && Pow2(1) == 2 && Pow2(4) == 16 && Pow2(5) == 32 && Pow2(7) == 128 && Pow2(8) == 256
    ensures Pow2(9) == 512 && Pow2(10) == 0x400 && Pow2(13) == 0x2000 && Pow2(14) == 0x4000
    ensures Pow2(16) == 0x1_0000 && Pow2(17) == 0x2_0000 && Pow2(22) == 0x40_0000 && Pow2(24) == 0x100_0000
    ensures Pow2(29) == 0x2000_0000 && Pow2(30) == 0x4000_0000 && Pow2(31) == 0x8000_0000
    ensures Pow2(46) == 0x4000_0000_0000 && Pow2(56) == 0x100_0000_0000_0000
  {
    assert Pow2(5) == 32 && Pow2(8) == 256;
    assert Pow2(10) == 0x400 && Pow2(13) == 0x2000;
    Pow2Adds(7, 7);
    Pow2Adds(8, 8);
    Pow2Adds(1, 16);
    Pow2Adds(8, 14);
    Pow2Adds(8, 16);
    Pow2Adds(13, 16);
    Pow2Adds(14, 16);
    Pow2Adds(1, 30);
    Pow2Adds(16, 30);
    Pow2Adds(10, 46);
  }

  // ---- the frame header ----

  lemma FrameOffsets()
    ensures var ws := FrameBits();
            && Sum(ws[..0]) == 0 && Sum(ws[..1]) == 4 && Sum(ws[..2]) == 9 && Sum(ws[..3]) == 16
            && Sum(ws[..4]) == 32 && Sum(ws[..5]) == 48 && Sum(ws[..6]) == 61 && Sum(ws[..7]) == 78
            && Sum(ws[..8]) == 88 && Sum(ws[..9]) == 96 && Sum(ws[..10]) == 103 && Sum(ws[..11]) == 104
            && Sum(ws[..12]) == 126 && Sum(ws[..13]) == 127
  {
    var ws := FrameBits();
    assert ws[..0] == [];
    SumNext(ws, 0);
    SumNext(ws, 1);
    SumNext(ws, 2);
    SumNext(ws, 3);
    SumNext(ws, 4);
    SumNext(ws, 5);
    SumNext(ws, 6);
    SumNext(ws, 7);
    SumNext(ws, 8);
    SumNext(ws, 9);
    SumNext(ws, 10);
    SumNext(ws, 11);
    SumNext(ws, 12);
  }

  /** The identification of a frame is in its bytes 0 to 3. */
  lemma FrameOrigin(s: seq<nat>)
    requires AllBytes(s) && |s| == 16
    ensures var h, n := FrameFromBytes(s), Number(s[0..4]);
            && h.pmtId == n % 16 && h.efcmId == n / 16 % 32
            && h.towerId == n / 512 % 128 && h.syncBytes == n / 0x1_0000 % 0x1_0000
  {
    hide Decode, Sum, Number, Pow2;
    Powers();
    FrameOffsets();
    FieldAt(s, FrameBits(), 0, 0, 4, 0);
    FieldAt(s, FrameBits(), 1, 0, 4, 4);
    FieldAt(s, FrameBits(), 2, 0, 4, 9);
    FieldAt(s, FrameBits(), 3, 0, 4, 16);
  }

  /** The time of a frame is in its bytes 4 to 11, day and year in the last four of them. */
  lemma FrameTime(s: seq<nat>)
    requires AllBytes(s) && |s| == 16
    ensures var h, n, w := FrameFromBytes(s), Number(s[4..12]), Number(s[8..12]);
            && h.t4ns == n % 0x1_0000 && h.frameCounter == n / 0x1_0000 % 0x2000
            && h.seconds == n / 0x2000_0000 % 0x2_0000
            && h.days == n / 0x4000_0000_0000 % 0x400 && h.years == n / 0x100_0000_0000_0000 % 0x100
            && h.days == w / 0x4000 % 0x400 && h.years == w / 0x100_0000 % 0x100
  {
    hide Decode, Sum, Number, Pow2;
    Powers();
    FrameOffsets();
    FieldAt(s, FrameBits(), 4, 4, 8, 0);
    FieldAt(s, FrameBits(), 5, 4, 8, 16);
    FieldAt(s, FrameBits(), 6, 4, 8, 29);
    FieldAt(s, FrameBits(), 7, 4, 8, 46);
    FieldAt(s, FrameBits(), 8, 4, 8, 56);
    FieldAt(s, FrameBits(), 7, 8, 4, 14);
    FieldAt(s, FrameBits(), 8, 8, 4, 24);
  }

  /** The hit of a frame is in its bytes 12 to 15. */
  lemma FrameHit(s: seq<nat>)
    requires AllBytes(s) && |s| == 16
    ensures var h, n := FrameFromBytes(s), Number(s[12..16]);
            && h.nDataSamples == n % 128 && h.fifoFull == n / 128 % 2 && h.charge == n / 256 % 0x40_0000
            && h.fragFlag == n / 0x4000_0000 % 2 && h.zipFlag == n / 0x8000_0000 % 2
  {
    hide Decode, Sum, Number, Pow2;
    Powers();
    FrameOffsets();
    FieldAt(s, FrameBits(), 9, 12, 4, 0);
    FieldAt(s, FrameBits(), 10, 12, 4, 7);
    FieldAt(s, FrameBits(), 11, 12, 4, 8);
    FieldAt(s, FrameBits(), 12, 12, 4, 30);
    FieldAt(s, FrameBits(), 13, 12, 4, 31);
  }

  /** The bytes 4 to 11 of a header as written hold its time in one number. */
  lemma TimeInBytes(h: DataFrameHeader)
    requires FrameFits(h)
    ensures AllBytes(FrameBytes(h)) && |FrameBytes(h)| == 16 && Number(FrameBytes(h)[4..12]) == TimeWords(h)
  {
    hide Number, FrameBytes, FrameFits, FrameFromBytes, Pow2, TimeWords, AllBytes;
    FrameBytesAreBytes(h);
    FrameRoundTrip(h);
    FrameTime(FrameBytes(h));
    EightBytesBound(FrameBytes(h), 4);
    JoinTime(Number(FrameBytes(h)[4..12]), h);
  }

  lemma EightBytesBound(s: seq<nat>, b: nat)
    requires AllBytes(s) && b + 8 <= |s|
    ensures Number(s[b..b + 8]) < 0x1_0000_0000_0000_0000
  {
    NumberBound(s[b..b + 8]);
    Powers();
    Pow2Adds(8, 56);
  }

  lemma JoinTime(n: nat, h: DataFrameHeader)
    requires n < 0x1_0000_0000_0000_0000
    requires h.t4ns == n % 0x1_0000 && h.frameCounter == n / 0x1_0000 % 0x2000
    requires h.seconds == n / 0x2000_0000 % 0x2_0000
    requires h.days == n / 0x4000_0000_0000 % 0x400 && h.years == n / 0x100_0000_0000_0000 % 0x100
    ensures TimeWords(h) == n
  {
    DivideTwice(n, 0x1_0000, 0x2000);
    DivideTwice(n, 0x2000_0000, 0x2_0000);
    DivideTwice(n, 0x4000_0000_0000, 0x400);
  }

  lemma FrameBytesAreBytes(h: DataFrameHeader)
    requires FrameFits(h)
    ensures AllBytes(FrameBytes(h))
  {
    FrameBitsSum();
    DecodeEncode(FrameFields(h), FrameBits(), FRAME_SIZE);
  }

  lemma FourBytes(a: nat, b: nat, c: nat, d: nat)
    ensures Number([a, b, c, d]) == a + 0x100 * b + 0x1_0000 * c + 0x100_0000 * d
  {
    assert [a, b, c, d][1..] == [b, c, d] && [b, c, d][1..] == [c, d] && [c, d][1..] == [d] && [d][1..] == [];
    assert Number([d]) == d && Number([c, d]) == c + 256 * d;
  }

  /** A frame of day 150 of 2018: its sixteen bytes, its fields and its time. */
  lemma FrameExample(s: seq<nat>)
    requires s == [0x21, 0x06, 0xef, 0xbe, 0x05, 0, 0x02, 0x20, 0, 0, 0x54, 0x18, 0x83, 0x10, 0, 0x80]
    ensures FrameFromBytes(s) == DataFrameHeader(1, 2, 3, 0xbeef, 5, 2, 1, 0x150, 0x18, 3, 1, 0x10, 0, 1)
    ensures GetFullTime(FrameFromBytes(s)) == (18 * 365 + 5 + 150) * 21_600_000_000_000 + 250_000_000 + 62_505
  {
    hide Number, FrameFromBytes, GetFullTime;
    ExampleWords(s);
    FrameOrigin(s);
    FrameTime(s);
    FrameHit(s);
    ExampleTime(FrameFromBytes(s));
  }

  lemma ExampleTime(h: DataFrameHeader)
    requires h.t4ns == 5 && h.frameCounter == 2 && h.seconds == 1 && h.days == 0x150 && h.years == 0x18
    ensures GetFullTime(h) == (18 * 365 + 5 + 150) * 21_600_000_000_000 + 250_000_000 + 62_505
  {
  }

  lemma FourOf(s: seq<nat>, b: nat)
    requires b + 4 <= |s|
    ensures s[b..b + 4] == [s[b], s[b + 1], s[b + 2], s[b + 3]]
  {
  }

  lemma ExampleWords(s: seq<nat>)
    requires s == [0x21, 0x06, 0xef, 0xbe, 0x05, 0, 0x02, 0x20, 0, 0, 0x54, 0x18, 0x83, 0x10, 0, 0x80]
    ensures Number(s[0..4]) == 0xbeef_0621 && Number(s[4..12]) == 0x1854_0000_2002_0005
    ensures Number(s[8..12]) == 0x1854_0000 && Number(s[12..16]) == 0x8000_1083
  {
    hide Number;
    FourOf(s, 0);
    FourOf(s, 4);
    FourOf(s, 8);
    FourOf(s, 12);
    FourBytes(0x21, 0x06, 0xef, 0xbe);
    FourBytes(5, 0, 2, 0x20);
    FourBytes(0, 0, 0x54, 0x18);
    FourBytes(0x83, 0x10, 0, 0x80);
    assert s[4..12] == s[4..8] + s[8..12];
    NumberConcat(s[4..8], s[8..12]);
    Pow2Adds(16, 16);
    Powers();
  }

  /** The samples of a frame take the fewest whole 32-bit words that hold two bytes for each. */
  lemma PayloadIsWords(h: DataFrameHeader)
    ensures PayloadSize(h) % 4 == 0 && 2 * h.nDataSamples <= PayloadSize(h) < 2 * h.nDataSamples + 4
  {
    var pairs := h.nDataSamples / 2;
    if h.nDataSamples % 2 == 0 {
      assert PayloadSize(h) == 4 * pairs;
    } else {
      assert PayloadSize(h) == 4 * (pairs + 1);
    }
  }

  // ---- the other headers ----

  lemma FileOffsets()
    ensures var ws := FILE_BITS;
            && Sum(ws[..0]) == 0 && Sum(ws[..1]) == 32 && Sum(ws[..2]) == 64 && Sum(ws[..3]) == 128
            && Sum(ws[..4]) == 160 && Sum(ws[..5]) == 192 && Sum(ws[..6]) == 224
  {
    var ws := FILE_BITS;
    assert ws[..0] == [];
    SumNext(ws, 0);
    SumNext(ws, 1);
    SumNext(ws, 2);
    SumNext(ws, 3);
    SumNext(ws, 4);
    SumNext(ws, 5);
  }

  /** The fields of the file header, by their bytes. */
  lemma FileFieldsInBytes(s: seq<nat>)
    requires AllBytes(s) && |s| == 32
    ensures var h := FileFromBytes(s);
            && h.runNumber == Number(s[0..4]) && h.fileNumber == Number(s[4..8])
            && h.runStartTime == Number(s[8..16]) && h.datacardSize == Number(s[16..20])
            && h.numberOfEvents == Number(s[20..24]) && h.numberOfTimeslices == Number(s[24..28])
            && h.effectiveFileSize == Number(s[28..32])
  {
    hide Decode, Sum, Number;
    FileOffsets();
    BytesAt(s, FILE_BITS, 0, 0, 4);
    BytesAt(s, FILE_BITS, 1, 4, 4);
    BytesAt(s, FILE_BITS, 2, 8, 8);
    BytesAt(s, FILE_BITS, 3, 16, 4);
    BytesAt(s, FILE_BITS, 4, 20, 4);
    BytesAt(s, FILE_BITS, 5, 24, 4);
    BytesAt(s, FILE_BITS, 6, 28, 4);
  }

  /** The fields of a slice header, by their bytes. */
  lemma SliceFieldsInBytes(s: seq<nat>)
    requires AllBytes(s) && |s| == 16
    ensures var h := SliceFromBytes(s);
            h.tsId == Number(s[0..8]) && h.nEvents == Number(s[8..12]) && h.tsSize == Number(s[12..16])
  {
    hide Decode, Number;
    var ws := SLICE_BITS;
    assert ws[..0] == [];
    SumNext(ws, 0);
    SumNext(ws, 1);
    hide Sum;
    BytesAt(s, ws, 0, 0, 8);
    BytesAt(s, ws, 1, 8, 4);
    BytesAt(s, ws, 2, 12, 4);
  }

  lemma EventOffsets()
    ensures var ws := EventBits();
            && Sum(ws[..0]) == 0 && Sum(ws[..1]) == 32 && Sum(ws[..2]) == 64 && Sum(ws[..3]) == 96
            && Sum(ws[..4]) == 128 && Sum(ws[..5]) == 192 && Sum(ws[..6]) == 224
  {
    var ws := EventBits();
    assert ws[..0] == [];
    SumNext(ws, 0);
    SumNext(ws, 1);
    SumNext(ws, 2);
    SumNext(ws, 3);
    SumNext(ws, 4);
    SumNext(ws, 5);
  }

  lemma {:induction false} CounterOffset(j: nat)
    requires j <= 21
    ensures Sum(EventBits()[..6 + j]) == 8 * (28 + 4 * j)
  {
    hide Sum;
    EventOffsets();
    if j > 0 {
      CounterOffset(j - 1);
      SumNext(EventBits(), 5 + j);
      CounterWidth(j - 1);
    }
  }

  lemma CounterWidth(j: nat)
    requires j < 21
    ensures EventBits()[6 + j] == 32
  {
    RepeatIs(N_COUNTERS, 32);
  }

  /** The fields of an event header, by their bytes. */
  lemma EventFieldsInBytes(s: seq<nat>)
    requires AllBytes(s) && |s| == 112
    ensures var h := EventFromBytes(s);
            && h.eventTag == Number(s[0..4]) && h.eventId == Number(s[4..8]) && h.eventL == Number(s[8..12])
            && h.nHit == Number(s[12..16]) && h.startTime == Number(s[16..24]) && h.tsCompleted == Number(s[24..28])
  {
    hide Decode, Sum, Number, Repeat;
    EventOffsets();
    BytesAt(s, EventBits(), 0, 0, 4);
    BytesAt(s, EventBits(), 1, 4, 4);
    BytesAt(s, EventBits(), 2, 8, 4);
    BytesAt(s, EventBits(), 3, 12, 4);
    BytesAt(s, EventBits(), 4, 16, 8);
    BytesAt(s, EventBits(), 5, 24, 4);
  }

  /** The counters of an event header are four bytes each from byte 28. */
  lemma EventCountersInBytes(s: seq<nat>, j: nat)
    requires AllBytes(s) && |s| == 112 && j < 21
    ensures EventFromBytes(s).counters[j] == Number(s[28 + 4 * j..32 + 4 * j])
  {
    hide Decode, Sum, Number, Repeat;
    CounterOffset(j);
    CounterWidth(j);
    BytesAt(s, EventBits(), 6 + j, 28 + 4 * j, 4);
  }
}
