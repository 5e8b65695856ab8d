/** A5/1 and A5/2 (mbts/A53/a5.c, mbts/A53/a5.h). The 32-bit words of the source are bit
    sequences, lowest bit first; frame counts and key bytes are numbers, from which bits are
    taken by shifting. */
module A5 {
  import opened Arithmetic

  const FRAMES := 26 * 51 * 2048

  // ---- Words ----

  type Word = w: seq<bool> | |w| == 32 witness seq(32, _ => false)

  const NONE := Low(0)

  function Bits(s: set<nat>): Word {
    seq(32, i => i in s)
  }

  function Low(n: nat): Word {
    seq(32, i => i < n)
  }

  function Xor(a: Word, b: Word): (w: Word)
    ensures forall i :: 0 <= i < 32 ==> w[i] == (a[i] != b[i])
  {
    seq(32, i requires 0 <= i < 32 => a[i] != b[i])
  }

  function And(a: Word, b: Word): (w: Word)
    ensures forall i :: 0 <= i < 32 ==> w[i] == (a[i] && b[i])
  {
    seq(32, i requires 0 <= i < 32 => a[i] && b[i])
  }

  function Shl1(a: Word): (w: Word)
    ensures forall i :: 0 <= i < 32 ==> w[i] == (i > 0 && a[i - 1])
  {
    [false] + a[..31]
  }

  function Shr(a: Word, k: nat): (w: Word)
    ensures forall i :: 0 <= i < 32 ==> w[i] == (i + k < 32 && a[i + k])
  {
    seq(32, i requires 0 <= i => i + k < 32 && a[i + k])
  }

  function OrBit(a: Word, i: nat, b: bool): Word
    requires i < 32
  {
    a[i := a[i] || b]
  }

  function XorBit(a: Word, b: bool): Word {
    a[0 := a[0] != b]
  }

  /** x >> i on a number. */
  function ShrNat(x: nat, i: nat): nat {
    if i == 0 then x else ShrNat(x, i - 1) / 2
  }

  predicate BitOf(x: nat, i: nat) {
    ShrNat(x, i) % 2 == 1
  }

  // ---- Registers ----

  const R1_MASK := Low(19)
  const R2_MASK := Low(22)
  const R3_MASK := Low(23)
  const R4_MASK := Low(17)

  const R1_TAPS := Bits({13, 16, 17, 18})   // 0x072000
  const R2_TAPS := Bits({20, 21})           // 0x300000
  const R3_TAPS := Bits({7, 20, 21, 22})    // 0x700080
  const R4_TAPS := Bits({11, 16})           // 0x010800

  function Index(a: bool, b: bool, c: bool, d: bool): nat {
    (if a then 1 else 0) + (if b then 2 else 0) + (if c then 4 else 0) + (if d then 8 else 0)
  }

  /** Three folds and a table of the parities of 4 bits. */
  predicate Parity(x: Word) {
    var x3 := Fold(Fold(Fold(x, 16), 8), 4);
    BitOf(0x6996, Index(x3[0], x3[1], x3[2], x3[3]))
  }

  function Clock(r: Word, mask: Word, taps: Word): Word {
    OrBit(And(Shl1(r), mask), 0, Parity(And(r, taps)))
  }

  lemma TableIsParity(a: bool, b: bool, c: bool, d: bool)
    ensures BitOf(0x6996, Index(a, b, c, d)) == ((a != b) != (c != d))
  {
    assert ShrNat(0x6996, 0) == 0x6996;
    assert ShrNat(0x6996, 1) == 0x34cb;
    assert ShrNat(0x6996, 2) == 0x1a65;
    assert ShrNat(0x6996, 3) == 0xd32;
    assert ShrNat(0x6996, 4) == 0x699;
    assert ShrNat(0x6996, 5) == 0x34c;
    assert ShrNat(0x6996, 6) == 0x1a6;
    assert ShrNat(0x6996, 7) == 0xd3;
    assert ShrNat(0x6996, 8) == 0x69;
    assert ShrNat(0x6996, 9) == 0x34;
    assert ShrNat(0x6996, 10) == 0x1a;
    assert ShrNat(0x6996, 11) == 0xd;
    assert ShrNat(0x6996, 12) == 6;
    assert ShrNat(0x6996, 13) == 3;
    assert ShrNat(0x6996, 14) == 1;
    assert ShrNat(0x6996, 15) == 0;
  }

  function Fold(x: Word, k: nat): Word {
    Xor(x, Shr(x, k))
  }

  lemma FoldLinear(x: Word, y: Word, k: nat)
    ensures Fold(Xor(x, y), k) == Xor(Fold(x, k), Fold(y, k))
  {
    var l, r := Fold(Xor(x, y), k), Xor(Fold(x, k), Fold(y, k));
    forall i | 0 <= i < 32 ensures l[i] == r[i] {
    }
  }

  lemma FoldedParity(x: Word)
    ensures var x3 := Fold(Fold(Fold(x, 16), 8), 4);
            Parity(x) == ((x3[0] != x3[1]) != (x3[2] != x3[3]))
  {
    var x3 := Fold(Fold(Fold(x, 16), 8), 4);
    TableIsParity(x3[0], x3[1], x3[2], x3[3]);
  }

  /** Parity is additive over GF(2). */
  lemma ParityLinear(x: Word, y: Word)
    ensures Parity(Xor(x, y)) == (Parity(x) != Parity(y))
  {
    FoldedParity(x);
    FoldedParity(y);
    FoldedParity(Xor(x, y));
    FoldLinear(x, y, 16);
    FoldLinear(Fold(x, 16), Fold(y, 16), 8);
    FoldLinear(Fold(Fold(x, 16), 8), Fold(Fold(y, 16), 8), 4);
  }

  lemma ClockBits(r: Word, mask: Word, taps: Word)
    ensures Clock(r, mask, taps)[0] == Parity(And(r, taps))
    ensures forall i :: 1 <= i < 32 ==> Clock(r, mask, taps)[i] == (mask[i] && r[i - 1])
  {
  }

  lemma ClockLinear(x: Word, y: Word, mask: Word, taps: Word)
    ensures Clock(Xor(x, y), mask, taps) == Xor(Clock(x, mask, taps), Clock(y, mask, taps))
  {
    hide Parity, Clock;
    assert And(Xor(x, y), taps) == Xor(And(x, taps), And(y, taps));
    ParityLinear(And(x, taps), And(y, taps));
    ClockBits(Xor(x, y), mask, taps);
    ClockBits(x, mask, taps);
    ClockBits(y, mask, taps);
  }

  // ---- Loading a register ----

  /** One load step: clock, then add a bit at the bottom. */
  function LoadStep(r: Word, b: bool, mask: Word, taps: Word): Word {
    XorBit(Clock(r, mask, taps), b)
  }

  /** A register after loading `bits` into it, one forced clock each. */
  function Load(r: Word, bits: seq<bool>, mask: Word, taps: Word): Word
    decreases |bits|
  {
    if bits == [] then r
    else LoadStep(Load(r, bits[..|bits| - 1], mask, taps), bits[|bits| - 1], mask, taps)
  }

  function XorBits(a: seq<bool>, b: seq<bool>): (c: seq<bool>)
    requires |a| == |b|
    ensures |c| == |a| && forall i :: 0 <= i < |a| ==> c[i] == (a[i] != b[i])
  {
    seq(|a|, i requires 0 <= i < |a| => a[i] != b[i])
  }

  lemma StepLinear(x: Word, y: Word, a: bool, b: bool, mask: Word, taps: Word)
    ensures LoadStep(Xor(x, y), a != b, mask, taps)
         == Xor(LoadStep(x, a, mask, taps), LoadStep(y, b, mask, taps))
  {
    ClockLinear(x, y, mask, taps);
    hide Clock;
    assert LoadStep(Xor(x, y), a != b, mask, taps)
        == Xor(LoadStep(x, a, mask, taps), LoadStep(y, b, mask, taps));
  }

  /** Loading is linear over GF(2): the register loaded with the sum of two bit strings is the
      sum of the two loaded registers. */
  lemma {:induction false} LoadLinear(x: Word, y: Word, a: seq<bool>, b: seq<bool>, mask: Word, taps: Word)
    requires |a| == |b|
    ensures Load(Xor(x, y), XorBits(a, b), mask, taps) == Xor(Load(x, a, mask, taps), Load(y, b, mask, taps))
    decreases |a|
  {
    if a != [] {
      var n := |a| - 1;
      assert XorBits(a, b)[..n] == XorBits(a[..n], b[..n]);
      LoadLinear(x, y, a[..n], b[..n], mask, taps);
      StepLinear(Load(x, a[..n], mask, taps), Load(y, b[..n], mask, taps), a[n], b[n], mask, taps);
    }
  }

  lemma {:induction false} LoadAppend(r: Word, a: seq<bool>, b: seq<bool>, mask: Word, taps: Word)
    ensures Load(r, a + b, mask, taps) == Load(Load(r, a, mask, taps), b, mask, taps)
    decreases |b|
  {
    if b == [] {
      assert a + b == a;
    } else {
      assert (a + b)[..|a + b| - 1] == a + b[..|b| - 1];
      LoadAppend(r, a, b[..|b| - 1], mask, taps);
    }
  }

  // ---- Different bits leave a difference ----

  /** The highest bit in which two words differ is m. */
  ghost predicate TopDifference(x: Word, y: Word, m: nat) {
    m < 32 && x[m] != y[m] && forall i :: m < i < 32 ==> x[i] == y[i]
  }

  /** A difference moves up by one per load step as long as it stays inside the register,
      whatever the feedback does below it. */
  lemma DifferenceRises(x: Word, y: Word, m: nat, a: bool, b: bool, mask: Word, taps: Word)
    requires TopDifference(x, y, m) && m + 1 < 32 && mask[m + 1]
    ensures TopDifference(LoadStep(x, a, mask, taps), LoadStep(y, b, mask, taps), m + 1)
  {
    hide LoadStep;
    StepBits(x, a, mask, taps);
    StepBits(y, b, mask, taps);
    var x', y' := LoadStep(x, a, mask, taps), LoadStep(y, b, mask, taps);
    assert x'[m + 1] == x[m] && y'[m + 1] == y[m];
    forall i | m + 1 < i < 32 ensures x'[i] == y'[i] {
      assert x[i - 1] == y[i - 1];
    }
  }

  lemma StepBits(r: Word, b: bool, mask: Word, taps: Word)
    ensures forall i :: 1 <= i < 32 ==> LoadStep(r, b, mask, taps)[i] == (mask[i] && r[i - 1])
  {
    ClockBits(r, mask, taps);
  }

  /** The first bit in which two strings of at most 22 bits differ leaves a top difference whose
      place depends only on its position. Earlier bits push it up without changing it. */
  lemma {:induction false} FirstDifference(r: Word, a: seq<bool>, b: seq<bool>, j: nat, mask: Word, taps: Word)
    requires j < |a| == |b| <= 22 && a[j] != b[j] && a[..j] == b[..j]
    requires forall i :: 1 <= i < 22 ==> mask[i]
    ensures TopDifference(Load(r, a, mask, taps), Load(r, b, mask, taps), |a| - 1 - j)
    decreases |a|
  {
    hide Clock;
    var n := |a| - 1;
    if j == n {
      assert a[..n] == b[..n];
    } else {
      assert a[..n][..j] == a[..j] && b[..n][..j] == b[..j];
      FirstDifference(r, a[..n], b[..n], j, mask, taps);
      DifferenceRises(Load(r, a[..n], mask, taps), Load(r, b[..n], mask, taps), n - 1 - j, a[n], b[n], mask, taps);
    }
  }

  // ---- COUNT ----

  /** osmo_a5_fn_count. The three fields do not overlap, so combining them is adding them. */
  function Count(fn: nat): nat {
    fn / (26 * 51) * 2048 + fn % 51 * 32 + fn % 26
  }

  /** The frame number that a COUNT value stands for (section 4.3.3 of GSM 05.02). */
  function FrameOf(count: nat): nat {
    var t1, t3, t2 := count / 2048, count / 32 % 64, count % 32;
    t1 * (26 * 51) + 51 * ((t3 - t2) % 26) + t3
  }

  lemma CountRoundTrip(fn: nat)
    requires fn < FRAMES
    ensures Count(fn) < 0x400000 && FrameOf(Count(fn)) == fn
  {
    var t1, rest := fn / 1326, fn % 1326;
    RemainderUnique(fn, 26, t1 * 51 + rest / 26, rest % 26);
    RemainderUnique(fn, 51, t1 * 26 + rest / 51, rest % 51);
    assert t1 < 2048;
    Fields(t1, rest % 51, rest % 26);
    ChineseRemainder(rest);
  }

  lemma Fields(t1: nat, t3: nat, t2: nat)
    requires t3 < 64 && t2 < 32
    ensures var c := t1 * 2048 + t3 * 32 + t2; c / 2048 == t1 && c / 32 % 64 == t3 && c % 32 == t2
  {
    var c := t1 * 2048 + t3 * 32 + t2;
    RemainderUnique(c, 2048, t1, t3 * 32 + t2);
    RemainderUnique(c, 32, t1 * 64 + t3, t2);
    RemainderUnique(t1 * 64 + t3, 64, t1, t3);
  }

  lemma ChineseRemainder(x: nat)
    requires x < 26 * 51
    ensures 51 * ((x % 51 - x % 26) % 26) + x % 51 == x
  {
    var q, t3, t2 := x / 51, x % 51, x % 26;
    assert x == 51 * q + t3 && q < 26;
    var p := x / 26;
    RemainderUnique(t3 - t2, 26, p - 2 * q, q);
  }

  lemma CountInjective(fn: nat, fn': nat)
    requires fn < FRAMES && fn' < FRAMES && fn != fn'
    ensures Count(fn) != Count(fn')
  {
    CountRoundTrip(fn);
    CountRoundTrip(fn');
  }

  function CountBits(c: nat): (s: seq<bool>)
    ensures |s| == 22 && forall i :: 0 <= i < 22 ==> s[i] == BitOf(c, i)
  {
    seq(22, i requires 0 <= i => BitOf(c, i))
  }

  lemma {:induction false} ShrSplit(c: nat, n: nat, d: nat)
    requires ShrNat(c, n) == ShrNat(d, n)
    requires forall i: nat :: i < n ==> BitOf(c, i) == BitOf(d, i)
    ensures c == d
    decreases n
  {
    if n > 0 {
      assert BitOf(c, n - 1) == BitOf(d, n - 1);
      ShrSplit(c, n - 1, d);
    }
  }

  lemma {:induction false} ShrBound(c: nat, n: nat, m: nat)
    requires c < Pow2(n + m)
    ensures ShrNat(c, n) < Pow2(m)
    decreases n
  {
    if n > 0 {
      ShrBound(c, n - 1, m + 1);
    }
  }

  /** Different counts of 22 bits differ in one of the bits loaded. */
  lemma CountBitsInjective(c: nat, d: nat)
    requires c < 0x400000 && d < 0x400000 && c != d
    ensures CountBits(c) != CountBits(d)
  {
    assert Pow2(22) == 0x400000 by {
      assert Pow2(8) == 256;
      assert Pow2(16) == 65536;
    }
    ShrBound(c, 22, 0);
    ShrBound(d, 22, 0);
    if CountBits(c) == CountBits(d) {
      forall i: nat | i < 22 ensures BitOf(c, i) == BitOf(d, i) {
        assert CountBits(c)[i] == CountBits(d)[i];
      }
      ShrSplit(c, 22, d);
    }
  }

  lemma {:induction false} FirstDifferent(a: seq<bool>, b: seq<bool>) returns (j: nat)
    requires |a| == |b| && a != b
    ensures j < |a| && a[j] != b[j] && a[..j] == b[..j]
    decreases |a|
  {
    if a[0] != b[0] {
      j := 0;
    } else {
      assert a == [a[0]] + a[1..] && b == [b[0]] + b[1..];
      j := FirstDifferent(a[1..], b[1..]);
      assert a[..j + 1] == [a[0]] + a[1..][..j] && b[..j + 1] == [b[0]] + b[1..][..j];
      j := j + 1;
    }
  }

  // ---- The two generators ----

  datatype Regs1 = Regs1(r1: Word, r2: Word, r3: Word)
  datatype Regs2 = Regs2(r1: Word, r2: Word, r3: Word, r4: Word)

  predicate Majority(a: bool, b: bool, c: bool) {
    (if a then 1 else 0) + (if b then 1 else 0) + (if c then 1 else 0) >= 2
  }

  function Clock1(r: Regs1, force: bool): Regs1 {
    var maj := Majority(r.r1[8], r.r2[10], r.r3[10]);
    Regs1(if force || maj == r.r1[8] then Clock(r.r1, R1_MASK, R1_TAPS) else r.r1,
          if force || maj == r.r2[10] then Clock(r.r2, R2_MASK, R2_TAPS) else r.r2,
          if force || maj == r.r3[10] then Clock(r.r3, R3_MASK, R3_TAPS) else r.r3)
  }

  predicate Output1(r: Regs1) {
    (r.r1[18] != r.r2[21]) != r.r3[22]
  }

  /** n free-running clocks. */
  function Run1(r: Regs1, n: nat): Regs1 {
    if n == 0 then r else Clock1(Run1(r, n - 1), false)
  }

  /** The key bit loaded at step i: bytes from the last, bits from the lowest. */
  predicate KeyBit(key: seq<nat>, i: nat)
    requires |key| == 8 && i < 64
  {
    BitOf(key[7 - i / 8], i % 8)
  }

  function KeyBits(key: seq<nat>): (s: seq<bool>)
    requires |key| == 8
    ensures |s| == 64 && forall i :: 0 <= i < 64 ==> s[i] == KeyBit(key, i)
  {
    seq(64, i requires 0 <= i < 64 => KeyBit(key, i))
  }

  /** What is loaded for a key and a frame: 64 key bits, then 22 count bits. */
  function LoadedBits(key: seq<nat>, fn: nat): seq<bool>
    requires |key| == 8
  {
    KeyBits(key) + CountBits(Count(fn))
  }

  function Loaded1(bits: seq<bool>): Regs1 {
    Regs1(Load(NONE, bits, R1_MASK, R1_TAPS), Load(NONE, bits, R2_MASK, R2_TAPS),
          Load(NONE, bits, R3_MASK, R3_TAPS))
  }

  /** A5/2 sets one bit of each register after loading. */
  function Loaded2(bits: seq<bool>): Regs2 {
    Regs2(OrBit(Load(NONE, bits, R1_MASK, R1_TAPS), 15, true),
          OrBit(Load(NONE, bits, R2_MASK, R2_TAPS), 16, true),
          OrBit(Load(NONE, bits, R3_MASK, R3_TAPS), 18, true),
          OrBit(Load(NONE, bits, R4_MASK, R4_TAPS), 10, true))
  }

  /** After the same key, two frames of one hyperframe leave a top difference at the same place
      in the second and in the third register. */
  lemma FramesDiffer(key: seq<nat>, fn: nat, fn': nat) returns (m: nat)
    requires |key| == 8 && fn < FRAMES && fn' < FRAMES && fn != fn'
    ensures TopDifference(Loaded1(LoadedBits(key, fn)).r2, Loaded1(LoadedBits(key, fn')).r2, m)
    ensures TopDifference(Loaded1(LoadedBits(key, fn)).r3, Loaded1(LoadedBits(key, fn')).r3, m)
  {
    hide LoadStep;
    var k, c, c' := KeyBits(key), CountBits(Count(fn)), CountBits(Count(fn'));
    CountRoundTrip(fn);
    CountRoundTrip(fn');
    CountInjective(fn, fn');
    CountBitsInjective(Count(fn), Count(fn'));
    var j := FirstDifferent(c, c');
    m := 21 - j;
    LoadAppend(NONE, k, c, R2_MASK, R2_TAPS);
    LoadAppend(NONE, k, c', R2_MASK, R2_TAPS);
    LoadAppend(NONE, k, c, R3_MASK, R3_TAPS);
    LoadAppend(NONE, k, c', R3_MASK, R3_TAPS);
    FirstDifference(Load(NONE, k, R2_MASK, R2_TAPS), c, c', j, R2_MASK, R2_TAPS);
    FirstDifference(Load(NONE, k, R3_MASK, R3_TAPS), c, c', j, R3_MASK, R3_TAPS);
  }

  /** Two different frames of a hyperframe always load different A5/1 states. */
  lemma Loaded1Injective(key: seq<nat>, fn: nat, fn': nat)
    requires |key| == 8 && fn < FRAMES && fn' < FRAMES && fn != fn'
    ensures Loaded1(LoadedBits(key, fn)).r2 != Loaded1(LoadedBits(key, fn')).r2
    ensures Loaded1(LoadedBits(key, fn)).r3 != Loaded1(LoadedBits(key, fn')).r3
  {
    hide Loaded1, LoadedBits;
    var m := FramesDiffer(key, fn, fn');
  }

  /** So does A5/2: its forced bits hide a difference in the second register only when that is
      bit 16 alone, and in the third only when it is bit 18 alone, which cannot both be. */
  lemma Loaded2Injective(key: seq<nat>, fn: nat, fn': nat)
    requires |key| == 8 && fn < FRAMES && fn' < FRAMES && fn != fn'
    ensures Loaded2(LoadedBits(key, fn)) != Loaded2(LoadedBits(key, fn'))
  {
    hide LoadedBits, Load;
    var m := FramesDiffer(key, fn, fn');
    var a, b := Loaded2(LoadedBits(key, fn)), Loaded2(LoadedBits(key, fn'));
    if m == 16 {
      assert a.r3[m] != b.r3[m];
    } else {
      assert a.r2[m] != b.r2[m];
    }
  }

  // ---- The generators as loops ----

  function AddBit(r: Regs1, b: bool): Regs1 {
    Regs1(XorBit(r.r1, b), XorBit(r.r2, b), XorBit(r.r3, b))
  }

  lemma Loaded1Step(bits: seq<bool>, i: nat)
    requires i < |bits|
    ensures Loaded1(bits[..i + 1]) == AddBit(Clock1(Loaded1(bits[..i]), true), bits[i])
  {
    assert bits[..i + 1][..i] == bits[..i];
  }

  lemma NothingLoaded(none: seq<bool>)
    requires none == []
    ensures Loaded1(none) == Regs1(NONE, NONE, NONE)
    ensures Registers2(none) == Regs2(NONE, NONE, NONE, NONE)
  {
  }

  /** Bit i of the A5/1 stream: the downlink block is bits 0 to 113, the uplink block the next
      114. */
  predicate Stream1(key: seq<nat>, fn: nat, i: nat)
    requires |key| == 8
  {
    Output1(Run1(Loaded1(LoadedBits(key, fn)), 100 + i + 1))
  }

  /** osmo_a5_1: the loads. */
  method LoadA51(key: seq<nat>, fn: nat) returns (r: Regs1)
    requires |key| == 8
    ensures r == Loaded1(LoadedBits(key, fn))
  {
    hide Clock1, AddBit, Loaded1, BitOf;
    ghost var bits := LoadedBits(key, fn);
    r := Regs1(NONE, NONE, NONE);
    NothingLoaded(bits[..0]);
    for i := 0 to 64
      invariant r == Loaded1(bits[..i])
    {
      Loaded1Step(bits, i);
      var b := KeyBit(key, i);
      r := Clock1(r, true);
      r := AddBit(r, b);
    }
    var fnCount := Count(fn);
    for i := 0 to 22
      invariant r == Loaded1(bits[..64 + i])
    {
      Loaded1Step(bits, 64 + i);
      var b := BitOf(fnCount, i);
      r := Clock1(r, true);
      r := AddBit(r, b);
    }
    assert bits[..64 + 22] == bits;
  }

  /** One output loop of 114 bits, starting after n free-running clocks. */
  method OutputBlock(r0: Regs1, ghost start: Regs1, ghost n: nat, out: array?<bool>) returns (r: Regs1)
    requires r0 == Run1(start, n) && (out != null ==> out.Length == 114)
    modifies out
    ensures r == Run1(start, n + 114)
    ensures out != null ==> forall i :: 0 <= i < 114 ==> out[i] == Output1(Run1(start, n + i + 1))
  {
    hide Clock1, Output1;
    r := r0;
    for i := 0 to 114
      invariant r == Run1(start, n + i)
      invariant out != null ==> forall k :: 0 <= k < i ==> out[k] == Output1(Run1(start, n + k + 1))
    {
      r := Clock1(r, false);
      if out != null {
        out[i] := Output1(r);
      }
    }
  }

  /** osmo_a5_1. Either block may be left out. */
  method A51(key: seq<nat>, fn: nat, dl: array?<bool>, ul: array?<bool>)
    requires |key| == 8 && (dl != null ==> dl.Length == 114) && (ul != null ==> ul.Length == 114)
    requires dl != null ==> dl != ul
    modifies dl, ul
    ensures dl != null ==> forall i :: 0 <= i < 114 ==> dl[i] == Stream1(key, fn, i)
    ensures ul != null ==> forall i :: 0 <= i < 114 ==> ul[i] == Stream1(key, fn, 114 + i)
  {
    hide Output1, Clock1, Loaded1;
    var r := LoadA51(key, fn);
    ghost var start := r;
    for i := 0 to 100
      invariant r == Run1(start, i)
    {
      r := Clock1(r, false);
    }
    r := OutputBlock(r, start, 100, dl);
    r := OutputBlock(r, start, 214, ul);
  }

  function Clock2Forced(r: Regs2): Regs2 {
    Regs2(Clock(r.r1, R1_MASK, R1_TAPS), Clock(r.r2, R2_MASK, R2_TAPS),
          Clock(r.r3, R3_MASK, R3_TAPS), Clock(r.r4, R4_MASK, R4_TAPS))
  }

  function Registers2(bits: seq<bool>): Regs2 {
    Regs2(Load(NONE, bits, R1_MASK, R1_TAPS), Load(NONE, bits, R2_MASK, R2_TAPS),
          Load(NONE, bits, R3_MASK, R3_TAPS), Load(NONE, bits, R4_MASK, R4_TAPS))
  }

  function AddBit2(r: Regs2, b: bool): Regs2 {
    Regs2(XorBit(r.r1, b), XorBit(r.r2, b), XorBit(r.r3, b), XorBit(r.r4, b))
  }

  lemma Registers2Step(bits: seq<bool>, i: nat)
    requires i < |bits|
    ensures Registers2(bits[..i + 1]) == AddBit2(Clock2Forced(Registers2(bits[..i])), bits[i])
  {
    assert bits[..i + 1][..i] == bits[..i];
  }

  lemma Forced(bits: seq<bool>)
    ensures var r := Registers2(bits);
            Loaded2(bits) == Regs2(OrBit(r.r1, 15, true), OrBit(r.r2, 16, true), OrBit(r.r3, 18, true),
                                   OrBit(r.r4, 10, true))
  {
  }

  /** osmo_a5_2: the loads and the bits set after them. */
  method LoadA52(key: seq<nat>, fn: nat) returns (r: Regs2)
    requires |key| == 8
    ensures r == Loaded2(LoadedBits(key, fn))
  {
    hide Clock2Forced, AddBit2, Registers2, BitOf, Load, OrBit;
    ghost var bits := LoadedBits(key, fn);
    r := Regs2(NONE, NONE, NONE, NONE);
    NothingLoaded(bits[..0]);
    for i := 0 to 64
      invariant r == Registers2(bits[..i])
    {
      Registers2Step(bits, i);
      r := AddBit2(Clock2Forced(r), KeyBit(key, i));
    }
    var fnCount := Count(fn);
    for i := 0 to 22
      invariant r == Registers2(bits[..64 + i])
    {
      Registers2Step(bits, 64 + i);
      r := AddBit2(Clock2Forced(r), BitOf(fnCount, i));
    }
    assert bits[..64 + 22] == bits;
    Forced(bits);
    r := Regs2(OrBit(r.r1, 15, true), OrBit(r.r2, 16, true), OrBit(r.r3, 18, true), OrBit(r.r4, 10, true));
  }
}
