/** BCD numbers and RP messages of the short message service (ybts.cpp; sections 7.3 and 8.2.5
    of 3GPP TS 24.011). Octets are numbers below 256; fields of an octet that do not overlap
    are combined by adding. */
module RpData {
  datatype Option<+T> = None | Some(value: T)

  type Octet = x: nat | x < 256

  const BCD := "0123456789*#ABC"

  // ---- Numbering plan and type of number ----

  /** lookup() of a code in s_numPlan. */
  function PlanName(code: nat): Option<string> {
    match code
    case 0 => Some("unknown")
    case 1 => Some("isdn")
    case 3 => Some("data")
    case 4 => Some("telex")
    case 8 => Some("national")
    case 9 => Some("private")
    case 11 => Some("CTS-reserved")
    case 15 => Some("extension-reserved")
    case _ => None
  }

  /** lookup() of a name in s_numPlan; anything else, or no name, is 0. */
  function PlanCode(name: Option<string>): (c: nat)
    ensures c < 16
  {
    match name
    case Some("isdn") => 1
    case Some("data") => 3
    case Some("telex") => 4
    case Some("national") => 8
    case Some("private") => 9
    case Some("CTS-reserved") => 11
    case Some("extension-reserved") => 15
    case _ => 0
  }

  function TypeName(code: nat): Option<string> {
    match code
    case 0 => Some("unknown")
    case 1 => Some("international")
    case 2 => Some("national")
    case 3 => Some("network-specific")
    case 4 => Some("dedicated-access")
    case 5 => Some("reserved")
    case 6 => Some("abbreviated")
    case 7 => Some("extension-reserved")
    case _ => None
  }

  function TypeCode(name: Option<string>): (c: nat)
    ensures c < 8
  {
    match name
    case Some("international") => 1
    case Some("national") => 2
    case Some("network-specific") => 3
    case Some("dedicated-access") => 4
    case Some("reserved") => 5
    case Some("abbreviated") => 6
    case Some("extension-reserved") => 7
    case _ => 0
  }

  // ---- Digits ----

  /** bcdIndex: 15 for a character that is no digit. */
  function BcdIndex(c: char): (i: nat)
    ensures i <= 15 && (i < 15 ==> BCD[i] == c)
  {
    IndexFrom(c, 0)
  }

  function IndexFrom(c: char, i: nat): (k: nat)
    requires i <= 15
    ensures i <= k <= 15 && (k < 15 ==> BCD[k] == c)
    decreases 15 - i
  {
    if i == 15 || BCD[i] == c then i else IndexFrom(c, i + 1)
  }

  lemma {:induction false} IndexFromFinds(c: char, i: nat, k: nat)
    requires i <= k < 15 && BCD[k] == c
    ensures IndexFrom(c, i) < 15
    decreases 15 - i
  {
    if BCD[i] != c {
      IndexFromFinds(c, i + 1, k);
    }
  }

  lemma IsDigitIff(c: char)
    ensures IsDigit(c) <==> c in BCD
  {
    if c in BCD {
      var k :| 0 <= k < 15 && BCD[k] == c;
      IndexFromFinds(c, 0, k);
    }
  }

  predicate IsDigit(c: char) {
    BcdIndex(c) < 15
  }

  predicate AllDigits(s: string) {
    forall i :: 0 <= i < |s| ==> IsDigit(s[i])
  }

  /** The octets after the header octet of an encoded number: two digits each, low half first;
      encoding stops at the first character that is no digit, without the half octet before it. */
  function DigitOctets(s: string): (r: seq<Octet>) {
    if s == "" || !IsDigit(s[0]) then []
    else if |s| == 1 then [15 * 16 + BcdIndex(s[0])]
    else if !IsDigit(s[1]) then []
    else [BcdIndex(s[1]) * 16 + BcdIndex(s[0])] + DigitOctets(s[2..])
  }

  function HeaderOctet(plan: Option<string>, kind: Option<string>): Octet {
    128 + PlanCode(plan) + TypeCode(kind) % 4 * 16
  }

  function Half(n: nat): string {
    if n < 15 then [BCD[n]] else ""
  }

  /** The digits of a run of octets. */
  function OctetDigits(b: seq<Octet>): string {
    if b == [] then "" else Half(b[0] % 16) + Half(b[0] / 16) + OctetDigits(b[1..])
  }

  /** The number of leading characters that are digits. */
  function DigitPrefix(s: string): (n: nat)
    ensures n <= |s|
  {
    if s == "" || !IsDigit(s[0]) then 0 else 1 + DigitPrefix(s[1..])
  }

  lemma {:induction false} DigitPrefixIs(s: string)
    ensures forall i :: 0 <= i < DigitPrefix(s) ==> IsDigit(s[i])
    ensures DigitPrefix(s) < |s| ==> !IsDigit(s[DigitPrefix(s)])
  {
    if s != "" && IsDigit(s[0]) {
      DigitPrefixIs(s[1..]);
    }
  }

  /** What survives encoding: everything if all characters are digits, else the longest valid
      prefix rounded down to an even length. */
  function KeptLength(s: string): (n: nat)
    ensures n <= |s|
  {
    var n := DigitPrefix(s);
    if n == |s| then n else n - n % 2
  }

  lemma {:induction false} DecodeEncode(s: string)
    ensures OctetDigits(DigitOctets(s)) == s[..KeptLength(s)]
    ensures |DigitOctets(s)| == (KeptLength(s) + 1) / 2
    decreases |s|
  {
    if s != "" && IsDigit(s[0]) {
      if |s| == 1 {
        OneDigit(s[0]);
        assert DigitPrefix(s[1..]) == 0;
      } else if IsDigit(s[1]) {
        DecodeEncode(s[2..]);
        TwoDigits(s);
        KeptStep(s);
      } else {
        assert DigitPrefix(s[1..]) == 0;
      }
    }
  }

  lemma OneDigit(c: char)
    requires IsDigit(c)
    ensures OctetDigits([15 * 16 + BcdIndex(c)]) == [c]
  {
    var b := [15 * 16 + BcdIndex(c)];
    assert b[0] % 16 == BcdIndex(c) && b[0] / 16 == 15;
    assert OctetDigits(b[1..]) == "";
  }

  lemma DigitBack(c: char)
    requires IsDigit(c)
    ensures BcdIndex(c) < 15 && BCD[BcdIndex(c)] == c
  {
  }

  /** Two digits in one octet. */
  function Pair(lo: nat, hi: nat): Octet
    requires lo < 16 && hi < 16
  {
    hi * 16 + lo
  }

  lemma TwoDigits(s: string)
    requires |s| >= 2 && IsDigit(s[0]) && IsDigit(s[1])
    ensures OctetDigits(DigitOctets(s)) == [s[0]] + [s[1]] + OctetDigits(DigitOctets(s[2..]))
  {
    hide BcdIndex, IsDigit, OctetDigits, DigitOctets, Pair;
    DigitBack(s[0]);
    DigitBack(s[1]);
    PairFirst(s);
    TwoHalves(BcdIndex(s[0]), BcdIndex(s[1]), DigitOctets(s[2..]));
  }

  lemma PairFirst(s: string)
    requires |s| >= 2 && IsDigit(s[0]) && IsDigit(s[1])
    ensures DigitOctets(s) == [Pair(BcdIndex(s[0]), BcdIndex(s[1]))] + DigitOctets(s[2..])
  {
    hide BcdIndex;
  }

  lemma TwoHalves(lo: nat, hi: nat, rest: seq<Octet>)
    requires lo < 15 && hi < 15
    ensures OctetDigits([Pair(lo, hi)] + rest) == [BCD[lo]] + [BCD[hi]] + OctetDigits(rest)
  {
    var b: seq<Octet> := [Pair(lo, hi)] + rest;
    assert b[0] % 16 == lo && b[0] / 16 == hi;
    assert b[1..] == rest;
  }

  lemma KeptStep(s: string)
    requires |s| >= 2 && IsDigit(s[0]) && IsDigit(s[1])
    ensures KeptLength(s) == 2 + KeptLength(s[2..])
    ensures s[..KeptLength(s)] == [s[0]] + [s[1]] + s[2..][..KeptLength(s[2..])]
  {
    hide BcdIndex;
    assert s[1..][1..] == s[2..];
    assert DigitPrefix(s) == 1 + DigitPrefix(s[1..]);
    assert DigitPrefix(s[1..]) == 1 + DigitPrefix(s[1..][1..]);
  }

  /** Encoding and decoding give the number back exactly if all its characters are digits. */
  lemma DigitsSurviveIff(s: string)
    ensures OctetDigits(DigitOctets(s)) == s <==> AllDigits(s)
  {
    DecodeEncode(s);
    DigitPrefixIs(s);
    if !AllDigits(s) {
      assert |s[..KeptLength(s)]| < |s|;
    }
  }

  /** The plan survives encoding; the type does exactly if its code fits two bits. The top bit says
      that no further header octet follows. */
  lemma HeaderRoundTrip(plan: Option<string>, kind: Option<string>)
    ensures var h := HeaderOctet(plan, kind);
      && h / 128 == 1 && PlanName(h % 16) == PlanName(PlanCode(plan)) && PlanCode(PlanName(h % 16)) == PlanCode(plan)
      && (TypeName(h / 16 % 8) == TypeName(TypeCode(kind)) <==> TypeCode(kind) < 4)
  {
    var p, t := PlanCode(plan), TypeCode(kind);
    var h := HeaderOctet(plan, kind);
    assert h % 16 == p && h / 16 == 8 + t % 4;
    assert TypeName(0) != TypeName(4) && TypeName(1) != TypeName(5) && TypeName(2) != TypeName(6)
        && TypeName(3) != TypeName(7);
  }

  // ---- The loops ----

  /** encodeBCDNumber: the octets written. */
  method EncodeBcdNumber(bcd: string, plan: Option<string>, kind: Option<string>) returns (b: seq<Octet>)
    ensures b == [HeaderOctet(plan, kind)] + DigitOctets(bcd)
  {
    hide BcdIndex, HeaderOctet, DigitOctets;
    b := [HeaderOctet(plan, kind)];
    ghost var all := b + DigitOctets(bcd);
    assert bcd[0..] == bcd;
    var p := 0;
    while p < |bcd|
      invariant p <= |bcd| && all == b + DigitOctets(bcd[p..])
    {
      var first := BcdIndex(bcd[p]);
      ghost var rest := bcd[p..];
      EncodeStop(rest);
      assert b + [] == b;
      p := p + 1;
      if first >= 15 {
        return;
      }
      var second := 15;
      if p < |bcd| {
        second := BcdIndex(bcd[p]);
        p := p + 1;
        if second >= 15 {
          return;
        }
      }
      EncodeStep(rest, bcd[p..]);
      b := b + [second * 16 + first];
    }
    EncodeStop("");
    assert bcd[p..] == "" && b + [] == b;
  }

  /** Encoding ends at the end of the text and at the first character that is no digit. */
  lemma EncodeStop(s: string)
    ensures s == "" || !IsDigit(s[0]) || (|s| > 1 && !IsDigit(s[1])) ==> DigitOctets(s) == []
  {
    hide BcdIndex;
  }

  lemma EncodeStep(s: string, rest: string)
    requires s != "" && IsDigit(s[0]) && (|s| > 1 ==> IsDigit(s[1]))
    requires rest == if |s| > 1 then s[2..] else ""
    ensures DigitOctets(s)
         == [(if |s| > 1 then BcdIndex(s[1]) else 15) * 16 + BcdIndex(s[0])] + DigitOctets(rest)
  {
  }

  datatype Number = Number(digits: string, plan: Option<string>, kind: Option<string>)

  /** What decodeBCDNumber makes of an address of at least one octet. */
  function DecodedNumber(b: seq<Octet>): Number
    requires b != []
  {
    Number(OctetDigits(b[1..]), PlanName(b[0] % 16), TypeName(b[0] / 16 % 8))
  }

  lemma DecodeStep(b: seq<Octet>, i: nat, digits: string)
    requires i < |b|
    ensures digits + OctetDigits(b[i..])
         == digits + Half(b[i] % 16) + Half(b[i] / 16) + OctetDigits(b[i + 1..])
  {
    assert b[i..][1..] == b[i + 1..];
    var lo, hi, rest := Half(b[i] % 16), Half(b[i] / 16), OctetDigits(b[i + 1..]);
    assert digits + (lo + hi + rest) == digits + lo + hi + rest;
  }

  /** decodeBCDNumber: the loop over the digit octets. */
  method DecodeDigits(b: seq<Octet>) returns (digits: string)
    ensures digits == OctetDigits(b)
  {
    hide OctetDigits;
    digits := "";
    NoOctets();
    for i := 0 to |b|
      invariant digits + OctetDigits(b[i..]) == OctetDigits(b)
    {
      DecodeStep(b, i, digits);
      var idx := b[i] % 16;
      if idx < 15 {
        digits := digits + [BCD[idx]];
      }
      idx := b[i] / 16;
      if idx < 15 {
        digits := digits + [BCD[idx]];
      }
    }
    assert b[|b|..] == [];
  }

  lemma NoOctets()
    ensures OctetDigits([]) == ""
  {
  }

  method DecodeBcdNumber(b: seq<Octet>) returns (n: Number)
    requires b != []
    ensures n == DecodedNumber(b)
  {
    var digits := DecodeDigits(b[1..]);
    n := Number(digits, PlanName(b[0] % 16), TypeName(b[0] / 16 % 8));
  }

  // ---- RP messages ----

  const RP_DATA_FROM_MS := 0
  const RP_DATA_FROM_NETWORK := 1

  /** skipLV: a length octet and that many octets, or all there are. */
  function SkipLV(b: seq<Octet>): seq<Octet> {
    if b == [] then [] else if b[0] + 1 <= |b| then b[b[0] + 1..] else []
  }

  /** Result code, message type and reference, the party address if one was decoded, and what is
      left of the message. */
  datatype Decoded = Decoded(code: int, msgType: nat, msgRef: nat, party: Option<Number>, rest: seq<Octet>)

  /** decodeRP. An RP-DATA message from the network that ends right after its reference is not
      covered: the source then reads past its end. */
  function DecodeRp(b: seq<Octet>): Decoded
    requires |b| == 2 ==> b[0] % 8 != RP_DATA_FROM_NETWORK
  {
    if |b| < 2 then Decoded(-1, 0, 0, None, b)
    else
      var t, r := b[0] % 8, b[1];
      if t != RP_DATA_FROM_MS && t != RP_DATA_FROM_NETWORK then Decoded(0, t, r, None, b[2..])
      else
        var a := if t == RP_DATA_FROM_MS then SkipLV(b[2..]) else b[2..];
        if a == [] then Decoded(-2, t, r, None, a)
        else
          var party := if 0 < a[0] <= |a| - 1 then Some(DecodedNumber(a[1..a[0] + 1])) else None;
          var rest := if a[0] <= |a| - 1 then a[a[0] + 1..] else [];
          Decoded(0, t, r, party, if t == RP_DATA_FROM_NETWORK then SkipLV(rest) else rest)
  }

  /** The originator address of an MT SMS: an address without digits is padded, since its length
      is at least 2. */
  function Originator(caller: string, plan: Option<string>, kind: Option<string>): seq<Octet> {
    [HeaderOctet(plan, kind)] + if DigitOctets(caller) == [] then [0xf0] else DigitOctets(caller)
  }

  /** The octets allocated for the length, the header and the digits of an originator. */
  function AddressSize(caller: string): nat {
    2 + (|caller| + 1) / 2
  }

  /** The originator and its length octet fit the space allocated for them, so that its last octet,
      written at the index that is its length, is inside, exactly if the caller is not empty: the
      padding of an empty one goes one octet past the end. */
  lemma AddressFitsIff(caller: string, plan: Option<string>, kind: Option<string>)
    ensures |Originator(caller, plan, kind)| < AddressSize(caller) <==> caller != ""
  {
    DecodeEncode(caller);
  }

  /** The RPDU built for an MT SMS: header, originator, empty destination, user data. Nothing is
      built if the address or the user data is too long. */
  method BuildRpData(caller: string, plan: Option<string>, kind: Option<string>, tpdu: seq<Octet>)
    returns (rp: Option<seq<Octet>>)
    ensures rp.None? <==> |DigitOctets(caller)| > 10 || |tpdu| > 231
    ensures rp.Some? ==> rp.value == [1, 0] + [|Originator(caller, plan, kind)|] + Originator(caller, plan, kind)
                                     + [0] + [|tpdu| + 1, 4] + tpdu
  {
    var c := EncodeBcdNumber(caller, plan, kind);
    if |c| > 11 {
      return None;
    }
    if |c| == 1 {
      c := c + [0xf0];
    }
    assert c == Originator(caller, plan, kind);
    if |tpdu| + 1 > 232 {
      return None;
    }
    rp := Some([RP_DATA_FROM_NETWORK, 0] + [|c|] + c + [0] + [|tpdu| + 1, 4] + tpdu);
  }

  /** The mobile reads back what was sent: message type, reference, caller, plan and type, and
      exactly the user data. */
  lemma MtSmsRoundTrip(caller: string, plan: Option<string>, kind: Option<string>, tpdu: seq<Octet>)
    requires |DigitOctets(caller)| <= 10 && |tpdu| <= 231
    ensures var o := Originator(caller, plan, kind);
      var d := DecodeRp([1, 0] + [|o|] + o + [0] + [|tpdu| + 1, 4] + tpdu);
      && d.code == 0 && d.msgType == RP_DATA_FROM_NETWORK && d.msgRef == 0
      && d.rest == [|tpdu| + 1, 4] + tpdu
      && d.party.Some?
      && d.party.value.digits == (if KeptLength(caller) == 0 then "0" else caller[..KeptLength(caller)])
      && d.party.value.plan == PlanName(PlanCode(plan))
      && d.party.value.kind == TypeName(TypeCode(kind) % 4)
  {
    hide DecodeRp, DecodedNumber, Originator, PlanName, TypeName;
    var o := Originator(caller, plan, kind);
    var user: seq<Octet> := [|tpdu| + 1, 4] + tpdu;
    OriginatorLength(caller, plan, kind);
    NetworkMessage(o, user);
    assert [1, 0] + [|o|] + o + [0] + [|tpdu| + 1, 4] + tpdu == [1, 0] + [|o|] + o + [0] + user;
    OriginatorDecodes(caller, plan, kind);
  }

  lemma OriginatorLength(caller: string, plan: Option<string>, kind: Option<string>)
    requires |DigitOctets(caller)| <= 10
    ensures 0 < |Originator(caller, plan, kind)| <= 11
  {
  }

  lemma NetworkMessage(o: seq<Octet>, user: seq<Octet>)
    requires 0 < |o| < 256
    ensures DecodeRp([1, 0] + [|o|] + o + [0] + user)
         == Decoded(0, RP_DATA_FROM_NETWORK, 0, Some(DecodedNumber(o)), user)
  {
    hide DecodedNumber, SkipLV, DecodeRp;
    var rp: seq<Octet> := [1, 0] + [|o|] + o + [0] + user;
    var a: seq<Octet> := [|o|] + (o + ([0] + user));
    assert rp == [1, 0] + a;
    Front(o, [0] + user);
    Front([], user);
    DecodeNetwork(a);
  }

  /** decodeRP on a message from the network whose originator fits. */
  lemma DecodeNetwork(a: seq<Octet>)
    requires a != [] && 0 < a[0] < |a|
    ensures DecodeRp([1, 0] + a)
         == Decoded(0, RP_DATA_FROM_NETWORK, 0, Some(DecodedNumber(a[1..a[0] + 1])), SkipLV(a[a[0] + 1..]))
  {
    hide DecodedNumber, SkipLV;
    var rp: seq<Octet> := [1, 0] + a;
    assert rp[2..] == a && rp[0] == 1 && rp[1] == 0;
  }

  /** The first length-value field of a message, and what follows it. */
  lemma Front(o: seq<Octet>, rest: seq<Octet>)
    requires |o| < 256
    ensures var a: seq<Octet> := [|o|] + (o + rest);
      a[1..|o| + 1] == o && a[|o| + 1..] == rest && SkipLV(a) == rest
    ensures o == [] ==> [0] + rest == [|o|] + (o + rest)
  {
    assert o == [] ==> o + rest == rest;
  }

  lemma OriginatorDecodes(caller: string, plan: Option<string>, kind: Option<string>)
    ensures var n := DecodedNumber(Originator(caller, plan, kind));
      && n.digits == (if KeptLength(caller) == 0 then "0" else caller[..KeptLength(caller)])
      && n.plan == PlanName(PlanCode(plan)) && n.kind == TypeName(TypeCode(kind) % 4)
  {
    DecodeEncode(caller);
    HeaderFields(plan, kind);
    var o := Originator(caller, plan, kind);
    if DigitOctets(caller) == [] {
      assert o[1..] == [0xf0];
      PadIsZero();
    } else {
      assert o[1..] == DigitOctets(caller);
    }
  }

  lemma PadIsZero()
    ensures OctetDigits([0xf0]) == "0"
  {
    assert OctetDigits([0xf0]) == Half(0) + Half(15) + OctetDigits([]);
  }

  lemma HeaderFields(plan: Option<string>, kind: Option<string>)
    ensures HeaderOctet(plan, kind) % 16 == PlanCode(plan)
    ensures HeaderOctet(plan, kind) / 16 % 8 == TypeCode(kind) % 4
  {
    hide PlanCode, TypeCode;
  }
}
