/** TMSI allocation with node selection (nipc/nipc.js) and the node read back from a TMSI
    (roaming/roaming.js); section 2.4 of 3GPP TS 23.003. A TMSI is 32 bits: the top byte, then
    `bits` bits of node, then the rest. Script numbers are wide enough that no operation here
    overflows, and the masks used select fields, so they are written as division and remainder;
    parts combined with "or" do not overlap. */
module Tmsi {
  import opened Arithmetic

  const TOP := 0x1000000      // weight of the top byte
  const WORD := 0x1_0000_0000

  /** The settings initNnsf derives. */
  datatype Nnsf = Nnsf(bits: nat, node: nat) {
    ghost predicate Valid() {
      bits <= 10 && node < Pow2(bits)
    }

    /** Weight of the node field: nnsf_local_mask + 1. */
    function Local(): (m: nat)
      requires bits <= 10
      ensures m > 0
    {
      Pow2(24 - bits)
    }

    function NodeShift(): nat
      requires bits <= 10
    {
      node * Local()
    }

    /** How many counter values there are before the top two bits would both be set. */
    function Cycle(): nat
      requires bits <= 10
    {
      192 * Local()
    }
  }

  function InitNnsf(bits: nat, node: nat): (n: Nnsf)
    ensures n.Valid()
  {
    if 0 < bits <= 10 then Nnsf(bits, node % Pow2(bits)) else Nnsf(0, 0)
  }

  /** The TMSI without its node field. */
  function Squeeze(n: Nnsf, t: nat): nat
    requires n.Valid()
  {
    t / TOP % 256 * n.Local() + t % n.Local()
  }

  /** The counter with the node field put in. */
  function Expand(n: Nnsf, c: nat): nat
    requires n.Valid()
  {
    c * Pow2(n.bits) / TOP % 256 * TOP + n.NodeShift() + c % n.Local()
  }

  predicate BothTopBits(t: nat) {
    t / 0x40000000 % 4 == 3
  }

  /** newTmsi on numbers. */
  function NextTmsi(n: Nnsf, last: nat): nat
    requires n.Valid()
  {
    var t := if n.bits > 0 then Expand(n, Squeeze(n, last) + 1) else last + 1;
    if BothTopBits(t) then n.NodeShift() + 1 else t
  }

  /** Where getSIPRegistrar reads the node. */
  function NodeOf(bits: nat, t: nat): nat
    requires bits <= 10
  {
    t / Pow2(24 - bits) % Pow2(bits)
  }

  lemma LocalTimesNodes(n: Nnsf)
    requires n.Valid()
    ensures n.Local() * Pow2(n.bits) == TOP
  {
    Pow2Add(24 - n.bits, n.bits);
    assert Pow2(8) == 256;
    assert Pow2(16) == 65536;
    assert Pow2(24) == TOP;
  }

  /** Three fields put together and read back. */
  lemma Compose(hi: nat, node: nat, lo: nat, m: nat, k: nat)
    requires m > 0 && k > 0 && m * k == TOP && hi < 256 && node < k && lo < m
    ensures var t := hi * TOP + node * m + lo;
            t < WORD && t / TOP == hi && t % m == lo && t / m % k == node
  {
    var t := hi * TOP + node * m + lo;
    assert (node + 1) * m <= k * m;
    RemainderUnique(t, TOP, hi, node * m + lo);
    assert hi * (m * k) == (hi * k) * m;
    RemainderUnique(t, m, hi * k + node, lo);
    RemainderUnique(hi * k + node, k, hi, node);
  }

  /** The expanded counter field by field. */
  lemma ExpandFields(n: Nnsf, c: nat)
    requires n.Valid()
    ensures var t := Expand(n, c);
      && t == c / n.Local() % 256 * TOP + n.node * n.Local() + c % n.Local()
      && t < WORD
      && t / TOP == c / n.Local() % 256
      && t % n.Local() == c % n.Local()
      && NodeOf(n.bits, t) == n.node
  {
    hide Pow2;
    var m, k := n.Local(), Pow2(n.bits);
    LocalTimesNodes(n);
    DivideScaled(c, m, k);
    Compose(c / m % 256, n.node, c % m, m, k);
  }

  /** Squeezing and expanding are inverse for every counter of 32 - bits bits. */
  lemma SqueezeExpand(n: Nnsf, c: nat)
    requires n.Valid() && c < 256 * n.Local()
    ensures Squeeze(n, Expand(n, c)) == c
  {
    hide Expand, Pow2;
    ExpandFields(n, c);
    var m, t := n.Local(), Expand(n, c);
    QuotientBelow(c, m, 256);
    Small(c / m, 256);
    Small(t / TOP, 256);
    Combine(t / TOP % 256, t % m, c, m);
  }

  lemma Small(x: nat, m: nat)
    requires x < m
    ensures x % m == x && x / m == 0
  {
  }

  lemma Combine(x: nat, y: nat, c: nat, m: nat)
    requires m > 0 && x == c / m && y == c % m
    ensures x * m + y == c
  {
  }

  lemma QuotientBelow(c: nat, m: nat, q: nat)
    requires m > 0
    ensures c < q * m <==> c / m < q
  {
    var x := c / m;
    assert c == x * m + c % m;
    if x < q {
      assert (x + 1) * m <= q * m;
    } else {
      assert x * m >= q * m;
    }
  }

  lemma TopBitsIff(n: Nnsf, c: nat)
    requires n.Valid() && c < 256 * n.Local()
    ensures BothTopBits(Expand(n, c)) <==> c >= n.Cycle()
  {
    hide Expand, BothTopBits, Pow2, NodeOf;
    var m := n.Local();
    ExpandTop(n, c);
    QuotientBelow(c, m, 256);
    QuotientBelow(c, m, 192);
    Small(c / m, 256);
    TopBitsOfByte(Expand(n, c));
  }

  lemma ExpandTop(n: Nnsf, c: nat)
    requires n.Valid()
    ensures Expand(n, c) < WORD && Expand(n, c) / TOP == c / n.Local() % 256
  {
    hide Expand, Pow2, NodeOf;
    ExpandFields(n, c);
  }

  lemma TopBitsOfByte(t: nat)
    requires t < WORD
    ensures BothTopBits(t) <==> t / TOP >= 192
  {
    var hi, rest := t / TOP, t % TOP;
    RemainderUnique(t, 0x40000000, hi / 64, hi % 64 * TOP + rest);
  }

  /** Every TMSI handed out, whatever the last one was, carries the configured node where it is
      read back and does not have both top bits set. */
  lemma TmsiCarriesNode(n: Nnsf, last: nat)
    requires n.Valid() && n.bits > 0
    ensures NodeOf(n.bits, NextTmsi(n, last)) == n.node
    ensures !BothTopBits(NextTmsi(n, last)) && NextTmsi(n, last) < WORD
  {
    ExpandFields(n, Squeeze(n, last) + 1);
    if BothTopBits(Expand(n, Squeeze(n, last) + 1)) {
      ExpandOne(n);
      ExpandFields(n, 1);
      TopBitsIff(n, 1);
    }
  }

  lemma ExpandOne(n: Nnsf)
    requires n.Valid()
    ensures n.Local() > 1 && Expand(n, 1) == n.NodeShift() + 1
  {
    LocalAboveOne(n);
    hide Expand, Pow2;
    ExpandFields(n, 1);
    Small(1, n.Local());
  }

  lemma LocalAboveOne(n: Nnsf)
    requires n.Valid()
    ensures n.Local() > 1
  {
  }

  // ---- The sequence ----

  /** The TMSI after k calls, starting without a last one. */
  function Nth(n: Nnsf, k: nat): nat
    requires n.Valid()
  {
    if k == 0 then 0 else NextTmsi(n, Nth(n, k - 1))
  }

  /** The counter runs from 1 to Cycle - 1 and starts over. */
  function CounterAt(n: Nnsf, k: nat): nat
    requires n.Valid() && k > 0
  {
    (k - 1) % (n.Cycle() - 1) + 1
  }

  lemma NextOnCycle(n: Nnsf, c: nat)
    requires n.Valid() && c < n.Cycle()
    ensures NextTmsi(n, Expand(n, c)) == Expand(n, if c + 1 == n.Cycle() then 1 else c + 1)
  {
    hide Expand, Pow2, Squeeze, BothTopBits;
    SqueezeExpand(n, c);
    if n.bits == 0 {
      ExpandPlain(n, c);
      ExpandPlain(n, c + 1);
    }
    TopBitsIff(n, c + 1);
    ExpandOne(n);
  }

  /** Without node bits a TMSI is its counter. */
  lemma ExpandPlain(n: Nnsf, c: nat)
    requires n.Valid() && n.bits == 0 && c < 256 * n.Local()
    ensures Expand(n, c) == c
  {
    LocalTimesNodes(n);
    assert n.node == 0 && n.Local() == TOP by {
      assert Pow2(0) == 1;
    }
    hide Expand, Pow2;
    ExpandFields(n, c);
    QuotientBelow(c, TOP, 256);
    assert c / TOP % 256 == c / TOP;
  }

  lemma FirstTmsi(n: Nnsf)
    requires n.Valid()
    ensures Nth(n, 1) == Expand(n, 1)
  {
    ExpandOne(n);
    TopBitsIff(n, 1);
    assert Squeeze(n, 0) == 0;
    if n.bits == 0 {
      ExpandPlain(n, 1);
    }
  }

  lemma CycleIsLong(n: Nnsf)
    requires n.Valid()
    ensures n.Cycle() - 1 > 1
  {
    LocalAboveOne(n);
  }

  lemma {:induction false} NthIs(n: Nnsf, k: nat)
    requires n.Valid() && k > 0
    ensures Nth(n, k) == Expand(n, CounterAt(n, k)) && 0 < CounterAt(n, k) < n.Cycle()
  {
    hide Expand, Squeeze, BothTopBits, Pow2, NextTmsi;
    var p := n.Cycle() - 1;
    CycleIsLong(n);
    if k == 1 {
      FirstTmsi(n);
    } else {
      NthIs(n, k - 1);
      NextOnCycle(n, CounterAt(n, k - 1));
      NextModulo(k - 2, p);
      assert Nth(n, k) == NextTmsi(n, Nth(n, k - 1));
    }
  }

  lemma NextModulo(x: nat, p: nat)
    requires p > 1
    ensures (x + 1) % p == if x % p + 1 == p then 0 else x % p + 1
  {
    var q := x / p;
    if x % p + 1 == p {
      RemainderUnique(x + 1, p, q + 1, 0);
    } else {
      RemainderUnique(x + 1, p, q, x % p + 1);
    }
  }

  /** The sequence repeats after exactly 192 * 2^(24 - bits) - 1 calls: two calls return the same
      TMSI if and only if that number divides their distance. */
  lemma RepeatsExactly(n: Nnsf, j: nat, k: nat)
    requires n.Valid() && j > 0 && k > 0
    ensures Nth(n, j) == Nth(n, k) <==> (j - 1) % (n.Cycle() - 1) == (k - 1) % (n.Cycle() - 1)
  {
    NthIs(n, j);
    NthIs(n, k);
    SqueezeExpand(n, CounterAt(n, j));
    SqueezeExpand(n, CounterAt(n, k));
  }

  lemma Period(n: Nnsf, k: nat)
    requires n.Valid() && k > 0
    ensures Nth(n, k + (192 * Pow2(24 - n.bits) - 1)) == Nth(n, k)
  {
    hide Nth, Pow2;
    var p := n.Cycle() - 1;
    assert p > 0;
    RemainderUnique(k - 1 + p, p, (k - 1) / p + 1, (k - 1) % p);
    RepeatsExactly(n, k + p, k);
  }

  /** The last TMSI put together from its top byte, any node and the rest. */
  function LastOf(n: Nnsf, hi: nat, other: nat, lo: nat): nat
    requires n.Valid()
  {
    hi * TOP + other * n.Local() + lo
  }

  /** The counter after that one. */
  function CounterAfter(n: Nnsf, hi: nat, lo: nat): (c: nat)
    requires n.Valid()
  {
    hi * n.Local() + lo + 1
  }

  lemma SqueezeLast(n: Nnsf, hi: nat, other: nat, lo: nat)
    requires n.Valid() && hi < 256 && other < Pow2(n.bits) && lo < n.Local()
    ensures Squeeze(n, LastOf(n, hi, other, lo)) + 1 == CounterAfter(n, hi, lo) <= 256 * n.Local()
  {
    hide Pow2;
    LocalTimesNodes(n);
    Compose(hi, other, lo, n.Local(), Pow2(n.bits));
    Small(hi, 256);
    AtMost255(hi, n.Local());
  }

  lemma AtMost255(hi: nat, m: nat)
    requires hi < 256
    ensures hi * m <= 255 * m
  {
  }

  /** Whatever node the last TMSI carries, the counter goes on by one. It starts over at 1 when it
      would reach the cycle; only after the last counter of all, which is never handed out, it is 0. */
  lemma NextFromAny(n: Nnsf, hi: nat, other: nat, lo: nat)
    requires n.Valid() && n.bits > 0 && hi < 256 && other < Pow2(n.bits) && lo < n.Local()
    ensures var c := CounterAfter(n, hi, lo);
      NextTmsi(n, LastOf(n, hi, other, lo))
        == Expand(n, if c == 256 * n.Local() then 0 else if c >= 192 * n.Local() then 1 else c)
  {
    hide Expand, BothTopBits, Pow2, Squeeze, LastOf, CounterAfter;
    SqueezeLast(n, hi, other, lo);
    var c := CounterAfter(n, hi, lo);
    ExpandOne(n);
    if c < 256 * n.Local() {
      TopBitsIff(n, c);
    } else {
      WrapsAround(n);
    }
  }

  lemma WrapsAround(n: Nnsf)
    requires n.Valid()
    ensures Expand(n, 256 * n.Local()) == Expand(n, 0) && !BothTopBits(Expand(n, 0))
  {
    hide Expand, BothTopBits, Pow2;
    ExpandFields(n, 256 * n.Local());
    ExpandFields(n, 0);
    ExactMultiple(256, n.Local());
    Small(0, n.Local());
    TopBitsIff(n, 0);
  }

  /** Without node bits the counter is the TMSI; only there it can leave 32 bits, after the last. */
  lemma NextWithoutNode(n: Nnsf, last: nat)
    requires n.Valid() && n.bits == 0 && last < WORD
    ensures NextTmsi(n, last) == if 0xc000_0000 - 1 <= last < WORD - 1 then 1 else last + 1
  {
    hide Pow2, BothTopBits;
    NoNode(n);
    TopBitsOfNumber(last + 1);
  }

  lemma NoNode(n: Nnsf)
    requires n.Valid() && n.bits == 0
    ensures n.NodeShift() == 0
  {
    assert Pow2(0) == 1;
  }

  lemma TopBitsOfNumber(t: nat)
    requires t <= WORD
    ensures BothTopBits(t) <==> 0xc000_0000 <= t < WORD
  {
    if t < WORD {
      TopBitsOfByte(t);
    }
  }

  // ---- As text ----

  predicate IsHexDigit(c: char) {
    '0' <= c <= '9' || 'a' <= c <= 'f'
  }

  function HexDigit(d: nat): (c: char)
    requires d < 16
    ensures IsHexDigit(c) && DigitValue(c) == d
  {
    if d < 10 then '0' + d as char else 'a' + (d - 10) as char
  }

  function DigitValue(c: char): nat
    requires IsHexDigit(c)
  {
    if c <= '9' then (c - '0') as nat else (c - 'a') as nat + 10
  }

  predicate IsHex(s: string) {
    forall c :: c in s ==> IsHexDigit(c)
  }

  function Digits(t: nat): (s: string)
    ensures IsHex(s) && s != ""
  {
    if t < 16 then [HexDigit(t)] else Digits(t / 16) + [HexDigit(t % 16)]
  }

  function Zeros(n: nat): (s: string)
    ensures |s| == n && forall c :: c in s ==> c == '0'
  {
    seq(n, _ => '0')
  }

  /** t.toString(16,8) */
  function ToHex(t: nat): (s: string)
    ensures IsHex(s) && |s| >= 8
  {
    var d := Digits(t);
    if |d| < 8 then Zeros(8 - |d|) + d else d
  }

  /** parseInt(s,16) on hexadecimal digits. */
  function ParseHex(s: string): nat
    requires IsHex(s)
  {
    if s == "" then 0 else ParseHex(s[..|s| - 1]) * 16 + DigitValue(s[|s| - 1])
  }

  lemma {:induction false} ParseDigits(t: nat)
    ensures ParseHex(Digits(t)) == t
  {
    var s := Digits(t);
    if t >= 16 {
      assert s[..|s| - 1] == Digits(t / 16);
      ParseDigits(t / 16);
    } else {
      assert s[..|s| - 1] == "";
    }
  }

  lemma {:induction false} LeadingZeros(n: nat, s: string)
    requires IsHex(s)
    ensures IsHex(Zeros(n) + s) && ParseHex(Zeros(n) + s) == ParseHex(s)
    decreases n + |s|
  {
    var z := Zeros(n) + s;
    if s != "" {
      assert z[..|z| - 1] == Zeros(n) + s[..|s| - 1];
      LeadingZeros(n, s[..|s| - 1]);
    } else if n > 0 {
      assert z[..|z| - 1] == Zeros(n - 1) + s;
      LeadingZeros(n - 1, s);
    } else {
      assert z == s;
    }
  }

  lemma ParseHexToHex(t: nat)
    ensures ParseHex(ToHex(t)) == t
  {
    ParseDigits(t);
    if |Digits(t)| < 8 {
      LeadingZeros(8 - |Digits(t)|, Digits(t));
    }
  }

  lemma {:induction false} DigitCount(t: nat, n: nat)
    requires n > 0
    ensures |Digits(t)| <= n <==> t < Power16(n)
    decreases n
  {
    if n > 1 && t >= 16 {
      DigitCount(t / 16, n - 1);
    } else if n > 1 {
      Power16Grows(n);
    }
  }

  function Power16(n: nat): nat {
    if n == 0 then 1 else 16 * Power16(n - 1)
  }

  lemma {:induction false} Power16Grows(n: nat)
    requires n > 0
    ensures Power16(n) >= 16
  {
    if n > 1 {
      Power16Grows(n - 1);
    }
  }

  /** A TMSI of 32 bits is printed with exactly eight digits, a larger number with more. */
  lemma EightDigits(t: nat)
    ensures |ToHex(t)| == 8 <==> t < WORD
  {
    DigitCount(t, 8);
    assert Power16(4) == 65536;
    assert Power16(8) == WORD;
  }

  /** The node getSIPRegistrar computes from a TMSI. */
  function RegistrarNode(bits: nat, tmsi: string): nat
    requires bits <= 10 && IsHex(tmsi)
  {
    NodeOf(bits, ParseHex(tmsi))
  }

  class TmsiAllocator {
    var nnsf: Nnsf
    var lastTmsi: string

    ghost predicate Valid()
      reads this
    {
      nnsf.Valid() && IsHex(lastTmsi)
    }

    ghost function Last(): nat
      requires Valid()
      reads this
    {
      ParseHex(lastTmsi)
    }

    constructor (bits: nat, node: nat, saved: string)
      requires IsHex(saved)
      ensures Valid() && lastTmsi == saved && nnsf == InitNnsf(bits, node)
    {
      nnsf, lastTmsi := InitNnsf(bits, node), saved;
    }

    /** A new TMSI, which names the configured node wherever a registrar is looked up. */
    method NewTmsi() returns (tmsi: string)
      requires Valid()
      modifies this`lastTmsi
      ensures Valid() && lastTmsi == tmsi && Last() == NextTmsi(nnsf, old(Last()))
      ensures nnsf.bits > 0 ==> RegistrarNode(nnsf.bits, tmsi) == nnsf.node
      ensures nnsf.bits > 0 ==> !BothTopBits(Last())
    {
      hide Squeeze, Expand, BothTopBits, Digits, ToHex, NodeOf, Pow2;
      var t := if lastTmsi != "" then ParseHex(lastTmsi) else 0;
      ghost var before := t;
      if nnsf.bits > 0 {
        t := Squeeze(nnsf, t);
      }
      t := t + 1;
      if nnsf.bits > 0 {
        t := Expand(nnsf, t);
      }
      if BothTopBits(t) {
        t := nnsf.NodeShift() + 1;
      }
      tmsi := ToHex(t);
      lastTmsi := tmsi;
      ParseHexToHex(t);
      if nnsf.bits > 0 {
        TmsiCarriesNode(nnsf, before);
      }
    }
  }
}
