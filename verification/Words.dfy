/** Facts about the bits of words, stated on the operators alone. */
module WordFacts {
  lemma OrShifted(a: bv64, b: bv64, j: bv64)
    requires j < 64
    ensures ((a | b) >> j) & 1 == 1 <==> (a >> j) & 1 == 1 || (b >> j) & 1 == 1
  {
  }

  lemma OneShifted(i: bv64, j: bv64)
    requires i < 64 && j < 64
    ensures (((1 as bv64) << i) >> j) & 1 == 1 <==> i == j
  {
  }

  lemma AndOverOr(w: bv64, a: bv64, b: bv64)
    ensures w & (a | b) == (w & a) | (w & b)
  {
  }

  lemma OneLess(j: bv64)
    requires j < 64
    ensures ((1 as bv64) << (j + 1)) - 1 == (((1 as bv64) << j) - 1) | ((1 as bv64) << j)
  {
  }

  lemma Widened(w: bv32, k: nat)
    requires k < 32
    ensures (w >> k) & 1 == 1 <==> ((w as bv64) >> k) & 1 == 1
  {
  }

  lemma NextNumber(j: bv64)
    requires j < 64
    ensures (j + 1) as nat == (j as nat) + 1
  {
  }
}

/** Machine words of 32 and 64 bits and the bits that shifts, masks and ORs give them. */
module Words {
  import WordFacts

  predicate Bit32(w: bv32, k: nat)
    requires k < 32
  {
    (w >> k) & 1 == 1
  }

  predicate Bit64(w: bv64, k: nat)
    requires k < 64
  {
    (w >> k) & 1 == 1
  }

  /** One, shifted left by k. */
  function One(k: nat): bv64
    requires k < 64
  {
    (1 as bv64) << k
  }

  /** Two words side by side, the first one lower. */
  function Joined(low: bv32, high: bv32): bv64 {
    ((high as bv64) << 32) + (low as bv64)
  }

  // ---- the same with the bit number as a word ----

  predicate BitAt(w: bv64, j: bv64)
    requires j < 64
  {
    (w >> j) & 1 == 1
  }

  function OneAt(j: bv64): bv64
    requires j < 64
  {
    (1 as bv64) << j
  }

  function Low(j: bv64): bv64
    requires j <= 64
  {
    ((1 as bv64) << j) - 1
  }

  function And(a: bv64, b: bv64): bv64 { a & b }

  function Or(a: bv64, b: bv64): bv64 { a | b }

  lemma OrBitAt(a: bv64, b: bv64, j: bv64)
    requires j < 64
    ensures BitAt(Or(a, b), j) <==> BitAt(a, j) || BitAt(b, j)
  {
    var x := a | b;
    WordFacts.OrShifted(a, b, j);
    assert Or(a, b) == x;
  }

  lemma OneBitAt(i: bv64, j: bv64)
    requires i < 64 && j < 64
    ensures BitAt(OneAt(i), j) <==> i == j
  {
    WordFacts.OneShifted(i, j);
  }

  lemma SetAt(w: bv64, j: bv64)
    requires j < 64 && BitAt(w, j)
    ensures And(w, OneAt(j)) == OneAt(j)
  {
  }

  lemma ClearAt(w: bv64, j: bv64)
    requires j < 64 && !BitAt(w, j)
    ensures And(w, OneAt(j)) == 0
  {
  }

  lemma OneAtIsNotZero(j: bv64)
    requires j < 64
    ensures OneAt(j) != 0
  {
  }

  lemma TestAt(w: bv64, j: bv64)
    requires j < 64
    ensures And(w, OneAt(j)) == if BitAt(w, j) then OneAt(j) else 0
    ensures OneAt(j) != 0
  {
    hide And, OneAt, BitAt;
    OneAtIsNotZero(j);
    if BitAt(w, j) {
      SetAt(w, j);
    } else {
      ClearAt(w, j);
    }
  }

  lemma JoinedLowBit(low: bv32, high: bv32, j: bv64)
    requires j < 32
    ensures BitAt(Joined(low, high), j) <==> BitAt(low as bv64, j)
  {
  }

  lemma JoinedHighBit(low: bv32, high: bv32, j: bv64)
    requires 32 <= j < 64
    ensures BitAt(Joined(low, high), j) <==> BitAt(high as bv64, j - 32)
  {
  }

  // ---- bit numbers as words ----

  function ToNat(i: bv64): nat { i as nat }

  function ToWord(k: nat): bv64
    requires k <= 64
  {
    k as bv64
  }

  /** k, counted up in a word. */
  function Count(k: nat): bv64 {
    if k == 0 then 0 else Count(k - 1) + 1
  }

  lemma NextToNat(j: bv64)
    requires j < 64
    ensures ToNat(j + 1) == ToNat(j) + 1
  {
    WordFacts.NextNumber(j);
  }

  lemma BackToWord(i: bv64)
    requires i <= 64
    ensures ToNat(i) <= 64 && ToWord(ToNat(i)) == i
  {
  }

  lemma SameBounds(i: bv64)
    ensures ToNat(0) == 0
    ensures ToNat(i) < 32 <==> i < 32
    ensures ToNat(i) < 64 <==> i < 64
    ensures ToNat(i) <= 64 <==> i <= 64
  {
  }

  lemma {:induction false} CountIs(k: nat)
    requires k <= 64
    ensures ToNat(Count(k)) == k && ToWord(k) == Count(k)
    ensures (k < 64 <==> ToWord(k) < 64) && (k < 32 <==> ToWord(k) < 32)
  {
    hide ToNat, ToWord;
    SameBounds(0);
    if k > 0 {
      CountIs(k - 1);
      SameBounds(Count(k - 1));
      NextToNat(Count(k - 1));
    }
    SameBounds(Count(k));
    BackToWord(Count(k));
  }

  lemma NextWord(k: nat)
    requires k < 64
    ensures ToWord(k) < 64 && ToWord(k + 1) == ToWord(k) + 1
  {
    hide ToNat, ToWord;
    CountIs(k);
    CountIs(k + 1);
  }

  lemma SameWordExactlyWhen(i: nat, k: nat)
    requires i <= 64 && k <= 64
    ensures ToWord(i) == ToWord(k) <==> i == k
  {
    hide ToNat, ToWord, Count;
    CountIs(i);
    CountIs(k);
  }

  lemma Literals()
    ensures ToWord(0) == 0 && ToWord(32) == 32 && ToWord(64) == 64
  {
  }

  lemma {:induction false} UpperHalfWord(k: nat)
    requires k <= 32
    ensures ToWord(k + 32) == ToWord(k) + 32
  {
    hide ToWord;
    if k == 0 {
      Literals();
    } else {
      UpperHalfWord(k - 1);
      NextWord(k - 1);
      NextWord(k + 31);
    }
  }

  lemma BitIsBitAt(w: bv64, k: nat)
    requires k < 64
    ensures ToWord(k) < 64 && (Bit64(w, k) <==> BitAt(w, ToWord(k))) && One(k) == OneAt(ToWord(k))
  {
    SmallWord(k);
  }

  lemma SmallWord(k: nat)
    requires k < 64
    ensures ToWord(k) < 64
  {
    hide ToWord;
    CountIs(k);
  }

  lemma Bit32IsBit64(w: bv32, k: nat)
    requires k < 32
    ensures Bit32(w, k) <==> Bit64(w as bv64, k)
  {
    WordFacts.Widened(w, k);
  }

  // ---- bits by number ----

  /** A bit of an OR. */
  lemma OrBit(a: bv64, b: bv64, k: nat)
    requires k < 64
    ensures Bit64(Or(a, b), k) <==> Bit64(a, k) || Bit64(b, k)
  {
    hide Bit64, BitAt, Or, ToWord;
    BitIsBitAt(a, k);
    BitIsBitAt(b, k);
    BitIsBitAt(Or(a, b), k);
    OrBitAt(a, b, ToWord(k));
  }

  /** One shifted left by i has bit i and no other. */
  lemma OneBit(i: nat, k: nat)
    requires i < 64 && k < 64
    ensures Bit64(One(i), k) <==> i == k
  {
    hide Bit64, BitAt, One, OneAt, ToWord;
    BitIsBitAt(One(i), k);
    BitIsBitAt(0, i);
    OneBitAt(ToWord(i), ToWord(k));
    SameWordExactlyWhen(i, k);
  }

  /** The usual test of a bit. */
  lemma TestBit(w: bv64, k: nat)
    requires k < 64
    ensures And(w, One(k)) != 0 <==> Bit64(w, k)
  {
    hide Bit64, BitAt, One, OneAt, And, ToWord;
    BitIsBitAt(w, k);
    TestAt(w, ToWord(k));
  }

  /** The bits of two joined words are those of the words. */
  lemma JoinedBit(low: bv32, high: bv32, k: nat)
    requires k < 64
    ensures Bit64(Joined(low, high), k) <==> if k < 32 then Bit32(low, k) else Bit32(high, k - 32)
  {
    hide Bit64, Bit32, BitAt, Joined, ToWord;
    BitIsBitAt(Joined(low, high), k);
    if k < 32 {
      CountIs(k);
      JoinedLowBit(low, high, ToWord(k));
      BitIsBitAt(low as bv64, k);
      Bit32IsBit64(low, k);
    } else {
      CountIs(k);
      JoinedHighBit(low, high, ToWord(k));
      UpperHalfWord(k - 32);
      BitIsBitAt(high as bv64, k - 32);
      Bit32IsBit64(high, k - 32);
    }
  }

  // ---- words are their bits ----

  lemma LowIs(j: bv64)
    requires j <= 64
    ensures Low(j) == ((1 as bv64) << j) - 1
  {
  }

  lemma OneAtIs(j: bv64)
    requires j < 64
    ensures OneAt(j) == (1 as bv64) << j
  {
  }

  lemma LowStep(j: bv64)
    requires j < 64
    ensures Low(j + 1) == Or(Low(j), OneAt(j))
  {
    hide Low, Or, OneAt;
    LowIs(j);
    LowIs(j + 1);
    OneAtIs(j);
    OrIs(((1 as bv64) << j) - 1, (1 as bv64) << j);
    WordFacts.OneLess(j);
  }

  lemma AndIs(a: bv64, b: bv64)
    ensures And(a, b) == a & b
  {
  }

  lemma OrIs(a: bv64, b: bv64)
    ensures Or(a, b) == a | b
  {
  }

  lemma AndOverOr(w: bv64, a: bv64, b: bv64)
    ensures And(w, Or(a, b)) == Or(And(w, a), And(w, b))
  {
    hide And, Or;
    OrIs(a, b);
    AndIs(w, a | b);
    AndIs(w, a);
    AndIs(w, b);
    OrIs(w & a, w & b);
    WordFacts.AndOverOr(w, a, b);
  }

  lemma AndLow(w: bv64)
    ensures And(w, Low(0)) == 0 && And(w, Low(64)) == w
  {
  }

  lemma SameLowBits(a: bv64, b: bv64, j: bv64)
    requires j < 64 && And(a, Low(j)) == And(b, Low(j)) && (BitAt(a, j) <==> BitAt(b, j))
    ensures And(a, Low(j + 1)) == And(b, Low(j + 1))
  {
    hide And, Or, Low, OneAt, BitAt;
    LowStep(j);
    AndOverOr(a, Low(j), OneAt(j));
    AndOverOr(b, Low(j), OneAt(j));
    TestAt(a, j);
    TestAt(b, j);
  }

  lemma {:induction false} SameBitsBelow(a: bv64, b: bv64, n: nat)
    requires n <= 64 && forall k: nat :: k < n ==> (Bit64(a, k) <==> Bit64(b, k))
    ensures ToWord(n) <= 64 && And(a, Low(ToWord(n))) == And(b, Low(ToWord(n)))
  {
    hide And, Low, BitAt, Bit64, ToWord;
    if n == 0 {
      Literals();
      AndLow(a);
      AndLow(b);
    } else {
      SameBitsBelow(a, b, n - 1);
      OneBitMore(a, b, n - 1);
    }
  }

  lemma OneBitMore(a: bv64, b: bv64, k: nat)
    requires k < 64 && (Bit64(a, k) <==> Bit64(b, k))
    requires ToWord(k) <= 64 && And(a, Low(ToWord(k))) == And(b, Low(ToWord(k)))
    ensures ToWord(k + 1) <= 64 && And(a, Low(ToWord(k + 1))) == And(b, Low(ToWord(k + 1)))
  {
    hide And, Low, BitAt, Bit64, ToWord;
    BitIsBitAt(a, k);
    BitIsBitAt(b, k);
    NextWord(k);
    SameLowBits(a, b, ToWord(k));
  }

  /** Words with the same bits are equal. */
  lemma SameBits(a: bv64, b: bv64)
    requires forall k: nat :: k < 64 ==> (Bit64(a, k) <==> Bit64(b, k))
    ensures a == b
  {
    hide And, Low, BitAt, Bit64, ToWord;
    SameBitsBelow(a, b, 64);
    Literals();
    AndLow(a);
    AndLow(b);
  }
}
