/** Complex samples over the reals and the defining sums of the DSP loops
    (transceiver/sigproc.h, transceiver/sigproc.cpp). */
module Signal {
  datatype Complex = Complex(re: real, im: real)

  const ZERO := Complex(0.0, 0.0)

  function Plus(a: Complex, b: Complex): Complex {
    Complex(a.re + b.re, a.im + b.im)
  }

  function Times(a: Complex, f: real): Complex {
    Complex(a.re * f, a.im * f)
  }

  /** Term i of the convolution sum at output n. */
  function Term(w: seq<Complex>, g: seq<real>, n: nat, i: nat): Complex
    requires n + |g| <= |w| && i < |g|
  {
    Times(w[n + i], g[|g| - 1 - i])
  }

  /** SUM over a <= i < b of w[n + i] * g[Lp - 1 - i]. */
  function ConvSum(w: seq<Complex>, g: seq<real>, n: nat, a: nat, b: nat): Complex
    requires n + |g| <= |w| && a <= b <= |g|
    decreases b - a
  {
    if a == b then ZERO else Plus(ConvSum(w, g, n, a, b - 1), Term(w, g, n, b - 1))
  }

  /** Output n of the convolution of w with the pulse g. */
  function Conv(w: seq<Complex>, g: seq<real>, n: nat): Complex
    requires n + |g| <= |w|
  {
    ConvSum(w, g, n, 0, |g|)
  }

  /** Terms over samples that are zero add nothing. */
  lemma {:induction false} SkipZeros(w: seq<Complex>, g: seq<real>, n: nat, a: nat, b: nat)
    requires n + |g| <= |w| && a <= b <= |g|
    requires forall j :: n + a <= j < n + b ==> w[j] == ZERO
    ensures ConvSum(w, g, n, 0, b) == ConvSum(w, g, n, 0, a)
    decreases b - a
  {
    if a < b {
      SkipZeros(w, g, n, a, b - 1);
      assert w[n + (b - 1)] == ZERO;
      assert Term(w, g, n, b - 1) == ZERO;
    }
  }

  lemma {:induction false} SplitSum(w: seq<Complex>, g: seq<real>, n: nat, a: nat, m: nat, b: nat)
    requires n + |g| <= |w| && a <= m <= b <= |g|
    ensures ConvSum(w, g, n, a, b) == Plus(ConvSum(w, g, n, a, m), ConvSum(w, g, n, m, b))
    decreases b - m
  {
    if m < b {
      SplitSum(w, g, n, a, m, b - 1);
    }
  }

  // ---- Folding a symmetric pulse ----

  ghost predicate Palindrome(g: seq<real>) {
    forall i :: 0 <= i < |g| ==> g[i] == g[|g| - 1 - i]
  }

  /** The pairs convolution() adds: both ends of the window with one coefficient. */
  function FoldSum(w: seq<Complex>, g: seq<real>, n: nat, c: nat): Complex
    requires n + |g| <= |w| && c <= |g| / 2
  {
    if c == 0 then ZERO
    else Plus(FoldSum(w, g, n, c - 1), Times(Plus(w[n + (c - 1)], w[n + |g| - c]), g[c - 1]))
  }

  /** What convolution() computes at output n. */
  function Folded(w: seq<Complex>, g: seq<real>, n: nat): Complex
    requires n + |g| <= |w| && |g| > 0
  {
    Plus(FoldSum(w, g, n, |g| / 2), Times(w[n + |g| / 2], g[|g| / 2]))
  }

  lemma TimesDistributes(x: Complex, y: Complex, f: real)
    ensures Times(Plus(x, y), f) == Plus(Times(x, f), Times(y, f))
  {
  }

  lemma Regroup(a: Complex, b: Complex, t: Complex, u: Complex)
    ensures Plus(Plus(a, b), Plus(t, u)) == Plus(Plus(a, t), Plus(Plus(ZERO, u), b))
  {
  }

  lemma {:induction false} FoldSumIs(w: seq<Complex>, g: seq<real>, n: nat, c: nat)
    requires n + |g| <= |w| && c <= |g| / 2 && Palindrome(g)
    ensures FoldSum(w, g, n, c) == Plus(ConvSum(w, g, n, 0, c), ConvSum(w, g, n, |g| - c, |g|))
  {
    hide Times;
    if c > 0 {
      var k := |g| - c;
      FoldSumIs(w, g, n, c - 1);
      assert g[c - 1] == g[k];
      SplitSum(w, g, n, k, k + 1, |g|);
      var t, u := Term(w, g, n, c - 1), Term(w, g, n, k);
      TimesDistributes(w[n + (c - 1)], w[n + k], g[c - 1]);
      assert t == Times(w[n + (c - 1)], g[c - 1]) && u == Times(w[n + k], g[c - 1]);
      Regroup(ConvSum(w, g, n, 0, c - 1), ConvSum(w, g, n, k + 1, |g|), t, u);
      assert ConvSum(w, g, n, k, k) == ZERO;
    }
  }

  /** Folding is exact for a palindrome of odd length; with even length the middle is counted
      once too often, which only goes unnoticed when that coefficient is zero. */
  lemma FoldedIsConv(w: seq<Complex>, g: seq<real>, n: nat)
    requires n + |g| <= |w| && |g| > 0 && Palindrome(g)
    requires |g| % 2 == 1 || g[|g| / 2] == 0.0
    ensures Folded(w, g, n) == Conv(w, g, n)
  {
    var h := |g| / 2;
    FoldSumIs(w, g, n, h);
    if |g| % 2 == 1 {
      SplitSum(w, g, n, 0, h + 1, |g|);
      assert g[h] == g[|g| - 1 - h];
    } else {
      SplitSum(w, g, n, 0, h, |g|);
    }
  }

  // ---- Exactly which pulses folding is right for ----

  function Impulse(len: nat, k: nat): (w: seq<Complex>)
    ensures |w| == len
    ensures forall j :: 0 <= j < len ==> w[j] == if j == k then Complex(1.0, 0.0) else ZERO
  {
    seq(len, j => if j == k then Complex(1.0, 0.0) else ZERO)
  }

  lemma ConvOfImpulse(g: seq<real>, len: nat, k: nat)
    requires k < |g| <= len
    ensures Conv(Impulse(len, k), g, 0) == Complex(g[|g| - 1 - k], 0.0)
  {
    var w := Impulse(len, k);
    SkipZeros(w, g, 0, 0, k);
    SkipZeros(w, g, 0, k + 1, |g|);
  }

  /** What the first c pairs see of an impulse at k: the coefficient paired with it. */
  function Seen(g: seq<real>, k: nat, c: nat): real
    requires k < |g|
  {
    if k < c then g[k] else if k >= |g| - c then g[|g| - 1 - k] else 0.0
  }

  lemma {:induction false} FoldOfImpulse(g: seq<real>, len: nat, k: nat, c: nat)
    requires k < |g| <= len && c <= |g| / 2
    ensures FoldSum(Impulse(len, k), g, 0, c) == Complex(Seen(g, k, c), 0.0)
  {
    hide Impulse, Seen, Times;
    if c == 0 {
      NothingSeen(g, k);
    } else {
      FoldOfImpulse(g, len, k, c - 1);
      PairOfImpulse(g, len, k, c);
      SeenMore(g, k, c);
    }
  }

  lemma NothingSeen(g: seq<real>, k: nat)
    requires k < |g|
    ensures Seen(g, k, 0) == 0.0
  {
  }

  lemma SeenMore(g: seq<real>, k: nat, c: nat)
    requires k < |g| && 0 < c && 2 * c <= |g|
    ensures Seen(g, k, c) == Seen(g, k, c - 1) + (if k == c - 1 || k == |g| - c then g[c - 1] else 0.0)
  {
  }

  lemma TimesUnit(f: real)
    ensures Times(Complex(1.0, 0.0), f) == Complex(f, 0.0) && Times(ZERO, f) == ZERO
  {
  }

  lemma PairOfImpulse(g: seq<real>, len: nat, k: nat, c: nat)
    requires k < |g| <= len && 0 < c && 2 * c <= |g|
    ensures var w := Impulse(len, k);
            Times(Plus(w[0 + (c - 1)], w[0 + |g| - c]), g[c - 1])
            == Complex(if k == c - 1 || k == |g| - c then g[c - 1] else 0.0, 0.0)
  {
    hide Impulse, Times;
    var w, f := Impulse(len, k), g[c - 1];
    var sum := Plus(w[0 + (c - 1)], w[0 + |g| - c]);
    TimesUnit(f);
    if k == c - 1 {
      assert sum == Complex(1.0, 0.0);
    } else if k == |g| - c {
      assert sum == Complex(1.0, 0.0);
    } else {
      assert sum == ZERO;
    }
  }

  /** Every sample convolution() produces is the convolution: it produces |w| - |g| of them. */
  ghost predicate FoldsExactly(g: seq<real>)
    requires |g| > 0
  {
    forall w: seq<Complex>, n: nat | n < |w| - |g| :: Folded(w, g, n) == Conv(w, g, n)
  }

  /** convolution() computes the convolution of every input exactly if the pulse is a palindrome
      and has odd length, or a zero in the middle. */
  lemma FoldsExactlyIff(g: seq<real>)
    requires |g| > 0
    ensures FoldsExactly(g) <==> Palindrome(g) && (|g| % 2 == 1 || g[|g| / 2] == 0.0)
  {
    var h := |g| / 2;
    if Palindrome(g) && (|g| % 2 == 1 || g[h] == 0.0) {
      forall w: seq<Complex>, n: nat | n < |w| - |g| ensures Folded(w, g, n) == Conv(w, g, n) {
        FoldedIsConv(w, g, n);
      }
    }
    if FoldsExactly(g) {
      forall k | 0 <= k < h ensures g[k] == g[|g| - 1 - k] {
        MatchesImpulse(g, k);
      }
      if |g| % 2 == 0 {
        MatchesImpulse(g, h);
      }
      forall i | 0 <= i < |g| ensures g[i] == g[|g| - 1 - i] {
        if i >= h && |g| - 1 - i < h {
          assert g[|g| - 1 - i] == g[|g| - 1 - (|g| - 1 - i)];
        }
      }
    }
  }

  lemma MatchesImpulse(g: seq<real>, k: nat)
    requires |g| > 0 && FoldsExactly(g) && k <= |g| / 2 && k < |g|
    ensures k < |g| / 2 ==> g[k] == g[|g| - 1 - k]
    ensures k == |g| / 2 && |g| % 2 == 0 ==> g[k] == 0.0
  {
    hide Impulse, Times, FoldSum, ConvSum, Seen;
    var w, h := Impulse(|g| + 1, k), |g| / 2;
    ConvOfImpulse(g, |g| + 1, k);
    FoldOfImpulse(g, |g| + 1, k, h);
    MiddleOfImpulse(g, |g| + 1, k);
    assert 0 < |w| - |g| && Folded(w, g, 0) == Conv(w, g, 0);
    var middle := if k == h then g[h] else 0.0;
    assert Folded(w, g, 0) == Plus(Complex(Seen(g, k, h), 0.0), Complex(middle, 0.0));
    hide Folded, Conv, FoldsExactly;
    SeenByHalf(g, k);
  }

  lemma SeenByHalf(g: seq<real>, k: nat)
    requires k < |g| && k <= |g| / 2
    ensures k < |g| / 2 ==> Seen(g, k, |g| / 2) == g[k]
    ensures k == |g| / 2 && |g| % 2 == 0 ==> Seen(g, k, |g| / 2) == g[|g| - 1 - k]
  {
  }

  lemma MiddleOfImpulse(g: seq<real>, len: nat, k: nat)
    requires k < |g| <= len
    ensures Times(Impulse(len, k)[0 + |g| / 2], g[|g| / 2])
         == Complex(if k == |g| / 2 then g[|g| / 2] else 0.0, 0.0)
  {
    hide Impulse, Times;
    TimesUnit(g[|g| / 2]);
  }
}
