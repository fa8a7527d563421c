/** Pieces of sequences. */
module Seqs {

  /** The elements s lie in the whole from `at` on. */
  ghost predicate Lies<T>(whole: seq<T>, at: nat, s: seq<T>) {
    at + |s| <= |whole| && whole[at..at + |s|] == s
  }

  lemma LiesSplit<T>(whole: seq<T>, at: nat, s: seq<T>, t: seq<T>)
    requires Lies(whole, at, s + t)
    ensures Lies(whole, at, s) && Lies(whole, at + |s|, t)
  {
    var both := whole[at..at + |s + t|];
    assert both[..|s|] == s && both[|s|..] == t;
    assert whole[at..at + |s|] == both[..|s|];
    assert whole[at + |s|..at + |s| + |t|] == both[|s|..];
  }

  lemma LiesAt<T>(whole: seq<T>, at: nat, s: seq<T>, i: nat)
    requires Lies(whole, at, s) && i < |s|
    ensures whole[at + i] == s[i]
  {
    assert whole[at..at + |s|][i] == whole[at + i];
  }

  lemma Regroup<T>(a: seq<T>, b: seq<T>, c: seq<T>)
    ensures (a + b) + c == a + (b + c)
  {
  }
}
