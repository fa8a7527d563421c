/** Records of unsigned bit fields, lowest bits first, and their little-endian bytes. */
module BitFields {
  import opened Arith

  function Pow2(n: nat): (p: nat)
    ensures p > 0
  {
    if n == 0 then 1 else 2 * Pow2(n - 1)
  }

  function Sum(ws: seq<nat>): nat {
    if ws == [] then 0 else ws[0] + Sum(ws[1..])
  }

  ghost predicate Fits(vs: seq<nat>, ws: seq<nat>) {
    |vs| == |ws| && forall i :: 0 <= i < |vs| ==> vs[i] < Pow2(ws[i])
  }

  /** The number whose bit fields of widths ws are vs. */
  function Pack(vs: seq<nat>, ws: seq<nat>): nat
    requires |vs| == |ws|
  {
    if ws == [] then 0 else vs[0] + Pow2(ws[0]) * Pack(vs[1..], ws[1..])
  }

  function Unpack(n: nat, ws: seq<nat>): (vs: seq<nat>)
    ensures |vs| == |ws|
    decreases |ws|
  {
    if ws == [] then []
    else
      QuotientIsNat(n, Pow2(ws[0]));
      [n % Pow2(ws[0])] + Unpack(n / Pow2(ws[0]), ws[1..])
  }

  /** A field stays below what its width holds. */
  lemma {:induction false} UnpackBelow(n: nat, ws: seq<nat>, i: nat)
    requires i < |ws|
    ensures Unpack(n, ws)[i] < Pow2(ws[i])
    decreases |ws|
  {
    QuotientIsNat(n, Pow2(ws[0]));
    if i > 0 {
      UnpackBelow(n / Pow2(ws[0]), ws[1..], i - 1);
    }
  }

  lemma {:induction false} Pow2Adds(m: nat, n: nat)
    ensures Pow2(m + n) == Pow2(m) * Pow2(n)
  {
    if m > 0 {
      Pow2Adds(m - 1, n);
      MulAssociates(2, Pow2(m - 1), Pow2(n));
      assert Pow2(m) == 2 * Pow2(m - 1) && Pow2(m + n) == 2 * Pow2(m - 1 + n);
    }
  }

  lemma DigitBound(v: nat, p: nat, q: nat, rest: nat)
    requires v < p && rest < q
    ensures v + p * rest < p * q
  {
    MulStep(p, rest, q);
  }

  lemma {:induction false} PackBound(vs: seq<nat>, ws: seq<nat>)
    requires Fits(vs, ws)
    ensures Pack(vs, ws) < Pow2(Sum(ws))
  {
    if ws != [] {
      PackBound(vs[1..], ws[1..]);
      Pow2Adds(ws[0], Sum(ws[1..]));
      DigitBound(vs[0], Pow2(ws[0]), Pow2(Sum(ws[1..])), Pack(vs[1..], ws[1..]));
    }
  }

  lemma {:induction false} UnpackPack(vs: seq<nat>, ws: seq<nat>)
    requires Fits(vs, ws)
    ensures Unpack(Pack(vs, ws), ws) == vs
  {
    if ws != [] {
      UnpackPack(vs[1..], ws[1..]);
      QuotientIs(Pack(vs, ws), Pow2(ws[0]), Pack(vs[1..], ws[1..]), vs[0]);
    }
  }

  lemma FitsCons(vs: seq<nat>, ws: seq<nat>)
    requires vs != [] && |vs| == |ws| && vs[0] < Pow2(ws[0]) && Fits(vs[1..], ws[1..])
    ensures Fits(vs, ws)
  {
    forall i | 0 <= i < |vs|
      ensures vs[i] < Pow2(ws[i])
    {
      if i > 0 {
        assert vs[i] == vs[1..][i - 1] && ws[i] == ws[1..][i - 1];
      }
    }
  }

  lemma {:induction false} PackUnpack(n: nat, ws: seq<nat>)
    requires n < Pow2(Sum(ws))
    ensures Fits(Unpack(n, ws), ws) && Pack(Unpack(n, ws), ws) == n
    decreases |ws|
  {
    if ws != [] {
      var p := Pow2(ws[0]);
      Pow2Adds(ws[0], Sum(ws[1..]));
      QuotientBound(n, p, Pow2(Sum(ws[1..])));
      QuotientIsNat(n, p);
      PackUnpack(n / p, ws[1..]);
      var vs := Unpack(n, ws);
      assert vs[0] == n % p && vs[1..] == Unpack(n / p, ws[1..]);
      FitsCons(vs, ws);
    }
  }

  // ---- bytes ----

  /** k fields of w bits each. */
  function Repeat(k: nat, w: nat): (ws: seq<nat>)
    ensures |ws| == k
  {
    if k == 0 then [] else [w] + Repeat(k - 1, w)
  }

  function Bytes(k: nat): seq<nat> {
    Repeat(k, 8)
  }

  lemma {:induction false} SumOfRepeat(k: nat, w: nat)
    ensures Sum(Repeat(k, w)) == k * w
  {
    if k > 0 {
      SumOfRepeat(k - 1, w);
      assert Repeat(k, w)[1..] == Repeat(k - 1, w);
      assert k * w == (k - 1) * w + w;
    }
  }

  lemma {:induction false} RepeatIs(k: nat, w: nat)
    ensures forall i :: 0 <= i < k ==> Repeat(k, w)[i] == w
  {
    if k > 0 {
      RepeatIs(k - 1, w);
    }
  }

  lemma {:induction false} SumConcat(u: seq<nat>, v: seq<nat>)
    ensures Sum(u + v) == Sum(u) + Sum(v)
  {
    if u == [] {
      assert u + v == v;
    } else {
      SumConcat(u[1..], v);
      assert (u + v)[1..] == u[1..] + v;
    }
  }

  ghost predicate AllBytes(s: seq<nat>) {
    forall i :: 0 <= i < |s| ==> s[i] < 256
  }

  lemma AllBytesFits(s: seq<nat>)
    ensures AllBytes(s) <==> Fits(s, Bytes(|s|))
  {
    RepeatIs(|s|, 8);
    assert Pow2(8) == 256;
  }

  /** The record as the k bytes a program reads or writes. */
  function Encode(vs: seq<nat>, ws: seq<nat>, k: nat): (s: seq<nat>)
    requires |vs| == |ws|
    ensures |s| == k
  {
    Unpack(Pack(vs, ws), Bytes(k))
  }

  function Decode(s: seq<nat>, ws: seq<nat>): (vs: seq<nat>)
    ensures |vs| == |ws|
  {
    Unpack(Pack(s, Bytes(|s|)), ws)
  }

  /** Reading the bytes of a record gives its fields. */
  lemma DecodeEncode(vs: seq<nat>, ws: seq<nat>, k: nat)
    requires Fits(vs, ws) && Sum(ws) == 8 * k
    ensures AllBytes(Encode(vs, ws, k)) && Decode(Encode(vs, ws, k), ws) == vs
  {
    PackBound(vs, ws);
    SumOfRepeat(k, 8);
    PackUnpack(Pack(vs, ws), Bytes(k));
    UnpackPack(vs, ws);
    AllBytesFits(Encode(vs, ws, k));
  }

  /** Every k bytes are those of exactly one record. */
  lemma EncodeDecode(s: seq<nat>, ws: seq<nat>)
    requires AllBytes(s) && Sum(ws) == 8 * |s|
    ensures Fits(Decode(s, ws), ws) && Encode(Decode(s, ws), ws, |s|) == s
  {
    AllBytesFits(s);
    SumOfRepeat(|s|, 8);
    PackBound(s, Bytes(|s|));
    PackUnpack(Pack(s, Bytes(|s|)), ws);
    UnpackPack(s, Bytes(|s|));
  }
}
