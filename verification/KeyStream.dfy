/** The A5/1 key stream told from outside the registers' code (mbts/A53/a5.c): the recurrence of
    each register, which registers move at a step, and what a stream bit is made of. */
module KeyStream {
  import opened Arithmetic
  import opened A5

  // ---- Registers ----

  lemma {:induction false} ParityIs(x: Word)
    ensures Parity(x) == ((Quarter(x, 0) != Quarter(x, 1)) != (Quarter(x, 2) != Quarter(x, 3)))
  {
    FoldedParity(x);
    hide Parity;
    forall i | 0 <= i < 4 ensures Fold(Fold(Fold(x, 16), 8), 4)[i] == Quarter(x, i) {
      FoldedBit(x, i);
    }
  }

  /** The sum of every fourth bit of a word. */
  function Quarter(x: Word, i: nat): bool
    requires i < 4
  {
    ((x[i] != x[i + 16]) != (x[i + 8] != x[i + 24])) != ((x[i + 4] != x[i + 20]) != (x[i + 12] != x[i + 28]))
  }

  lemma FoldedBit(x: Word, i: nat)
    requires i < 4
    ensures Fold(Fold(Fold(x, 16), 8), 4)[i] == Quarter(x, i)
  {
    var a := Fold(x, 16);
    var b := Fold(a, 8);
    assert forall j: nat :: j < 16 ==> a[j] == (x[j] != x[j + 16]);
    assert forall j: nat :: j < 8 ==> b[j] == (a[j] != a[j + 8]);
    assert Fold(b, 4)[i] == (b[i] != b[i + 4]);
  }

  /** A quarter of a word that has at most the bits j and k there. */
  lemma TwoLeft(x: Word, i: nat, j: nat, k: nat)
    requires i < 4 && j < 32 && k < 32 && j % 4 == k % 4 == i && j != k
    requires forall m: nat :: m < 32 && m % 4 == i && m != j && m != k ==> !x[m]
    ensures Quarter(x, i) == (x[j] != x[k])
  {
  }

  lemma FirstTaps(r: Word)
    ensures Parity(And(r, R1_TAPS)) == ((r[13] != r[16]) != (r[17] != r[18]))
  {
    hide Parity, Quarter;
    var x := And(r, R1_TAPS);
    assert forall i: nat :: i < 32 ==> x[i] == ((i == 13 || i == 16 || i == 17 || i == 18) && r[i]);
    ParityIs(x);
    TwoLeft(x, 0, 16, 0);
    TwoLeft(x, 1, 13, 17);
    TwoLeft(x, 2, 18, 2);
    TwoLeft(x, 3, 3, 7);
  }

  lemma SecondTaps(r: Word)
    ensures Parity(And(r, R2_TAPS)) == (r[20] != r[21])
  {
    hide Parity, Quarter;
    var x := And(r, R2_TAPS);
    assert forall i: nat :: i < 32 ==> x[i] == ((i == 20 || i == 21) && r[i]);
    ParityIs(x);
    TwoLeft(x, 0, 20, 0);
    TwoLeft(x, 1, 21, 1);
    TwoLeft(x, 2, 2, 6);
    TwoLeft(x, 3, 3, 7);
  }

  lemma ThirdTaps(r: Word)
    ensures Parity(And(r, R3_TAPS)) == ((r[7] != r[20]) != (r[21] != r[22]))
  {
    hide Parity, Quarter;
    var x := And(r, R3_TAPS);
    assert forall i: nat :: i < 32 ==> x[i] == ((i == 7 || i == 20 || i == 21 || i == 22) && r[i]);
    ParityIs(x);
    TwoLeft(x, 0, 20, 0);
    TwoLeft(x, 1, 21, 1);
    TwoLeft(x, 2, 22, 2);
    TwoLeft(x, 3, 7, 3);
  }

  /** One clock of the first register: 19 bits shift up, and bits 13, 16, 17 and 18 are fed back
      (the polynomial x^19 + x^18 + x^17 + x^14 + 1). */
  lemma FirstRegister(r: Word)
    ensures var c := Clock(r, R1_MASK, R1_TAPS);
      && c[0] == ((r[13] != r[16]) != (r[17] != r[18]))
      && (forall i :: 1 <= i < 19 ==> c[i] == r[i - 1]) && (forall i :: 19 <= i < 32 ==> !c[i])
  {
    hide Clock, Parity;
    ClockBits(r, R1_MASK, R1_TAPS);
    FirstTaps(r);
  }

  /** The second: 22 bits, fed back from 20 and 21 (x^22 + x^21 + 1). */
  lemma SecondRegister(r: Word)
    ensures var c := Clock(r, R2_MASK, R2_TAPS);
      && c[0] == (r[20] != r[21])
      && (forall i :: 1 <= i < 22 ==> c[i] == r[i - 1]) && (forall i :: 22 <= i < 32 ==> !c[i])
  {
    hide Clock, Parity;
    ClockBits(r, R2_MASK, R2_TAPS);
    SecondTaps(r);
  }

  /** The third: 23 bits, fed back from 7, 20, 21 and 22 (x^23 + x^22 + x^21 + x^8 + 1). */
  lemma ThirdRegister(r: Word)
    ensures var c := Clock(r, R3_MASK, R3_TAPS);
      && c[0] == ((r[7] != r[20]) != (r[21] != r[22]))
      && (forall i :: 1 <= i < 23 ==> c[i] == r[i - 1]) && (forall i :: 23 <= i < 32 ==> !c[i])
  {
    hide Clock, Parity;
    ClockBits(r, R3_MASK, R3_TAPS);
    ThirdTaps(r);
  }

  // ---- Which registers move ----

  /** A free-running step clocks a register exactly if its clock bit agrees with that of at least
      one other: so at least two of the three, and all if the three agree. */
  lemma MovesIff(r: Regs1)
    ensures var a, b, c, r' := r.r1[8], r.r2[10], r.r3[10], Clock1(r, false);
      && r'.r1 == (if a == b || a == c then Clock(r.r1, R1_MASK, R1_TAPS) else r.r1)
      && r'.r2 == (if b == a || b == c then Clock(r.r2, R2_MASK, R2_TAPS) else r.r2)
      && r'.r3 == (if c == a || c == b then Clock(r.r3, R3_MASK, R3_TAPS) else r.r3)
  {
    hide Clock;
  }

  /** A register clocked m times. */
  function Clocks(r: Word, m: nat, mask: Word, taps: Word): Word {
    if m == 0 then r else Clock(Clocks(r, m - 1, mask, taps), mask, taps)
  }

  /** How often each register moves in n free-running steps. */
  datatype Moves = Moves(m1: nat, m2: nat, m3: nat)

  function MovesIn(r: Regs1, n: nat): Moves {
    if n == 0 then Moves(0, 0, 0)
    else
      var m, s := MovesIn(r, n - 1), Run1(r, n - 1);
      var a, b, c := s.r1[8], s.r2[10], s.r3[10];
      Moves(m.m1 + (if a == b || a == c then 1 else 0), m.m2 + (if b == a || b == c then 1 else 0),
            m.m3 + (if c == a || c == b then 1 else 0))
  }

  /** After n steps each register is its start clocked as often as it moved; no register moves more
      often than n times, and together they move at least 2 n times. */
  lemma {:induction false} RunIs(r: Regs1, n: nat)
    ensures var m, s := MovesIn(r, n), Run1(r, n);
      && s.r1 == Clocks(r.r1, m.m1, R1_MASK, R1_TAPS)
      && s.r2 == Clocks(r.r2, m.m2, R2_MASK, R2_TAPS)
      && s.r3 == Clocks(r.r3, m.m3, R3_MASK, R3_TAPS)
      && m.m1 <= n && m.m2 <= n && m.m3 <= n && m.m1 + m.m2 + m.m3 >= 2 * n
  {
    hide Clock, Clock1;
    if n > 0 {
      RunIs(r, n - 1);
      MovesIff(Run1(r, n - 1));
    }
  }

  /** Bit i of the stream is the sum of the top bits of the three registers, loaded with the key and
      the frame's count and then clocked as often as they move in 101 + i steps. */
  lemma StreamBit(key: seq<nat>, fn: nat, i: nat)
    requires |key| == 8
    ensures var bits := LoadedBits(key, fn);
      var m := MovesIn(Loaded1(bits), 101 + i);
      Stream1(key, fn, i)
        == ((Clocks(Load(NONE, bits, R1_MASK, R1_TAPS), m.m1, R1_MASK, R1_TAPS)[18]
             != Clocks(Load(NONE, bits, R2_MASK, R2_TAPS), m.m2, R2_MASK, R2_TAPS)[21])
            != Clocks(Load(NONE, bits, R3_MASK, R3_TAPS), m.m3, R3_MASK, R3_TAPS)[22])
  {
    hide Run1, MovesIn, Clocks, Load, LoadedBits;
    RunIs(Loaded1(LoadedBits(key, fn)), 101 + i);
  }

  /** A5/2 begins with bits 15, 16, 18 and 10 of its registers set, and every other bit as loaded. */
  lemma ForcedBits(bits: seq<bool>, i: nat)
    requires i < 32
    ensures var f := Loaded2(bits);
      && f.r1[i] == (i == 15 || Load(NONE, bits, R1_MASK, R1_TAPS)[i])
      && f.r2[i] == (i == 16 || Load(NONE, bits, R2_MASK, R2_TAPS)[i])
      && f.r3[i] == (i == 18 || Load(NONE, bits, R3_MASK, R3_TAPS)[i])
      && f.r4[i] == (i == 10 || Load(NONE, bits, R4_MASK, R4_TAPS)[i])
  {
    hide Load;
  }

  // ---- The key ----

  /** The key read as one number, its first byte highest. */
  function KeyNumber(key: seq<nat>): nat {
    if key == [] then 0 else KeyNumber(key[..|key| - 1]) * 256 + key[|key| - 1]
  }

  lemma {:induction false} ShrTwice(x: nat, a: nat, b: nat)
    ensures ShrNat(ShrNat(x, a), b) == ShrNat(x, a + b)
  {
    if b > 0 {
      ShrTwice(x, a, b - 1);
    }
  }

  /** A number put below another one of which k bits are kept free. */
  lemma {:induction false} ShrLow(x: nat, k: nat, b: nat, i: nat)
    requires b < Pow2(k) && i <= k
    ensures i < k ==> BitOf(x * Pow2(k) + b, i) == BitOf(b, i)
    ensures i == k ==> ShrNat(x * Pow2(k) + b, i) == x
    decreases k
  {
    if i == 0 {
      LowBit(x, k, b);
    } else {
      var p := Pow2(k - 1);
      assert x * Pow2(k) == 2 * (x * p);
      ShrTwice(x * Pow2(k) + b, 1, i - 1);
      ShrTwice(b, 1, i - 1);
      hide Pow2;
      ShrLow(x, k - 1, b / 2, i - 1);
      assert (x * Pow2(k) + b) / 2 == x * p + b / 2;
    }
  }

  lemma LowBit(x: nat, k: nat, b: nat)
    requires b < Pow2(k)
    ensures if k > 0 then (x * Pow2(k) + b) % 2 == b % 2 else x * Pow2(k) + b == x
  {
    if k > 0 {
      EvenBelow(x, Pow2(k), Pow2(k - 1), b);
    }
  }

  lemma EvenBelow(x: nat, p: nat, half: nat, b: nat)
    requires p == 2 * half
    ensures (x * p + b) % 2 == b % 2
  {
    RemainderUnique(x * p + b, 2, x * half + b / 2, b % 2);
  }

  lemma ShrByte(x: nat, b: nat, i: nat)
    requires b < 256 && i <= 8
    ensures i < 8 ==> BitOf(x * 256 + b, i) == BitOf(b, i)
    ensures i == 8 ==> ShrNat(x * 256 + b, i) == x
  {
    assert Pow2(8) == 256;
    hide Pow2;
    ShrLow(x, 8, b, i);
  }

  /** Bit i loaded is bit i of the key read as a number. */
  lemma {:induction false} KeyBitIs(key: seq<nat>, i: nat)
    requires |key| == 8 && i < 64 && forall k :: 0 <= k < 8 ==> key[k] < 256
    ensures KeyBit(key, i) == BitOf(KeyNumber(key), i)
  {
    KeyFrom(key, i / 8, i % 8);
  }

  lemma {:induction false} KeyFrom(key: seq<nat>, j: nat, i: nat)
    requires j < |key| && i < 8 && forall k :: 0 <= k < |key| ==> key[k] < 256
    ensures BitOf(KeyNumber(key), 8 * j + i) == BitOf(key[|key| - 1 - j], i)
    decreases j
  {
    hide BitOf;
    var n := |key| - 1;
    if j == 0 {
      ShrByte(KeyNumber(key[..n]), key[n], i);
    } else {
      ShrByte(KeyNumber(key[..n]), key[n], 8);
      KeyFrom(key[..n], j - 1, i);
      BitOfShifted(KeyNumber(key), 8 * (j - 1) + i);
    }
  }

  lemma BitOfShifted(x: nat, i: nat)
    ensures BitOf(ShrNat(x, 8), i) == BitOf(x, 8 + i)
  {
    ShrTwice(x, 8, i);
  }
}
