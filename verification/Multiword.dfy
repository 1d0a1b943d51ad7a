/**
 * Natural numbers as little-endian sequences of 32-bit words, and the
 * value-level facts that the carry and borrow loops of dtoa.c rest on.
 */
module Multiword {
  type Word = w: int | 0 <= w < 0x1_0000_0000

  // The number whose low words are s and whose part above them is v.
  // v may be negative: a borrow that is still owed.
  function Over(s: seq<Word>, v: int): int {
    if s == [] then v else s[0] + 0x1_0000_0000 * Over(s[1..], v)
  }

  function Val(s: seq<Word>): int { Over(s, 0) }

  lemma {:induction false} OverSnoc(s: seq<Word>, w: Word, v: int)
    ensures Over(s + [w], v) == Over(s, w + 0x1_0000_0000 * v)
  {
    if s == [] {
      assert ([] + [w])[1..] == [];
    } else {
      assert (s + [w])[1..] == s[1..] + [w];
      OverSnoc(s[1..], w, v);
    }
  }

  lemma {:induction false} OverAppend(s: seq<Word>, t: seq<Word>, v: int)
    ensures Over(s + t, v) == Over(s, Over(t, v))
  {
    if s == [] {
      assert s + t == t;
    } else {
      assert (s + t)[1..] == s[1..] + t;
      OverAppend(s[1..], t, v);
    }
  }

  // One finished word: the pending value p splits into the word and what goes on.
  lemma OverStep(s: seq<Word>, w: Word, p: int, next: int)
    requires p == w + 0x1_0000_0000 * next
    ensures Over(s + [w], next) == Over(s, p)
  {
    OverSnoc(s, w, next);
  }

  lemma {:induction false} OverSign(s: seq<Word>, v: int)
    ensures Over(s, v) >= 0 <==> v >= 0
    ensures v > 0 ==> Over(s, v) > 0
  {
    if s != [] { OverSign(s[1..], v); }
  }

  lemma {:induction false} OverZero(s: seq<Word>)
    requires forall i :: 0 <= i < |s| ==> s[i] == 0
    ensures Val(s) == 0
  {
    if s != [] { OverZero(s[1..]); }
  }

  // A smaller high part wins over whatever the low words are.
  lemma {:induction false} HighDecides(s: seq<Word>, t: seq<Word>, u: int, v: int)
    requires |s| == |t| && u < v
    ensures Over(s, u) < Over(t, v)
  {
    if s != [] { HighDecides(s[1..], t[1..], u, v); }
  }

  lemma ValSplit(s: seq<Word>, i: nat)
    requires i <= |s|
    ensures Val(s) == Over(s[..i], Val(s[i..]))
  {
    assert s == s[..i] + s[i..];
    OverAppend(s[..i], s[i..], 0);
  }

  lemma ValHead(s: seq<Word>)
    requires |s| > 0
    ensures Val(s) == s[0] + 0x1_0000_0000 * Val(s[1..])
  {}

  lemma ValTop(s: seq<Word>)
    requires |s| > 0
    ensures Val(s) == Over(s[..|s| - 1], s[|s| - 1])
    ensures Val(s) >= 0
    ensures s[|s| - 1] != 0 ==> Val(s) > 0
  {
    assert s == s[..|s| - 1] + [s[|s| - 1]];
    OverSnoc(s[..|s| - 1], s[|s| - 1], 0);
    OverSign(s[..|s| - 1], s[|s| - 1]);
  }

  lemma ValNonneg(s: seq<Word>)
    ensures Val(s) >= 0
  { OverSign(s, 0); }

  // More words, the highest of them nonzero: the larger number.
  lemma LongerIsLarger(s: seq<Word>, t: seq<Word>)
    requires |s| < |t| && t[|t| - 1] != 0
    ensures Val(s) < Val(t)
  {
    ValTop(t);
    var n := |t| - 1;
    ValSplit(t, |s|);
    var h := t[|s|..];
    ValTop(h);
    HighDecides(s, t[..|s|], 0, Val(h));
  }

  // The quotient estimate from the top words alone never exceeds the quotient ...
  lemma {:induction false} EstimateLow(s: seq<Word>, b: seq<Word>, st: int, bt: int, q: int)
    requires |s| == |b| && q >= 0 && q * (st + 1) <= bt
    ensures q * (Over(s, st) + 1) <= Over(b, bt)
  {
    if s != [] {
      EstimateLow(s[1..], b[1..], st, bt, q);
      var o, p := Over(s[1..], st), Over(b[1..], bt);
      ScaleBound(q, s[0], o);
    }
  }

  lemma ScaleBound(q: int, w: Word, o: int)
    requires q >= 0
    ensures q * (w + 0x1_0000_0000 * o + 1) <= 0x1_0000_0000 * (q * (o + 1))
  {
    assert q * (w + 0x1_0000_0000 * o + 1) == q * (w + 1) + 0x1_0000_0000 * (q * o);
    assert q * (o + 1) == q * o + q;
    assert q * (w + 1) <= q * 0x1_0000_0000 by { MulMono(q, w + 1, 0x1_0000_0000); }
  }

  lemma MulMono(q: int, a: int, b: int)
    requires q >= 0 && a <= b
    ensures q * a <= q * b
  {
    assert q * (b - a) >= 0;
    assert q * (b - a) == q * b - q * a;
  }

  // ... and with r >= (bt + 1) / st it stays below r times the divisor.
  lemma {:induction false} EstimateHigh(s: seq<Word>, b: seq<Word>, st: int, bt: int, r: int)
    requires |s| == |b| && r >= 0 && bt + 1 <= r * st
    ensures Over(b, bt) + 1 <= r * Over(s, st)
  {
    if s != [] {
      EstimateHigh(s[1..], b[1..], st, bt, r);
      var o := Over(s[1..], st);
      assert r * (s[0] + 0x1_0000_0000 * o) == r * s[0] + 0x1_0000_0000 * (r * o);
      MulMono(r, 0, s[0]);
    }
  }
}
