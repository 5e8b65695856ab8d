/** What decodeRP makes of any RP message, whole or cut short (ybts.cpp; section 7.3 of
    3GPP TS 24.011). */
module RpMessages {
  import opened RpData

  /** An address with its length octet. */
  function Field(a: seq<Octet>): (f: seq<Octet>)
    requires |a| < 256
    ensures |f| == |a| + 1
  {
    [|a|] + a
  }

  function PartyOf(a: seq<Octet>): Option<Number> {
    if a == [] then None else Some(DecodedNumber(a))
  }

  lemma SkipField(a: seq<Octet>, rest: seq<Octet>)
    requires |a| < 256
    ensures var b := Field(a) + rest;
      && SkipLV(b) == rest && b[0] == |a| && b[1..] == a + rest
      && b[1..|a| + 1] == a && b[|a| + 1..] == rest
  {
  }

  lemma Body(kind: Octet, ref: Octet, body: seq<Octet>)
    ensures var b: seq<Octet> := [kind, ref] + body; b[0] == kind && b[1] == ref && b[2..] == body
  {
  }

  /** decodeRP once it stands before the address it wants. */
  lemma PartyDecoded(kind: Octet, ref: Octet, body: seq<Octet>, a: seq<Octet>, rest: seq<Octet>)
    requires kind % 8 in {0, 1} && |a| < 256
    requires (if kind % 8 == 0 then SkipLV(body) else body) == Field(a) + rest
    ensures DecodeRp([kind, ref] + body)
         == Decoded(0, kind % 8, ref, PartyOf(a), if kind % 8 == 1 then SkipLV(rest) else rest)
  {
    hide DecodedNumber, SkipLV;
    Body(kind, ref, body);
    SkipField(a, rest);
    assert body == [] ==> SkipLV(body) == [] by { NothingToSkip(); }
  }

  lemma NothingToSkip()
    ensures SkipLV([]) == []
  {
  }

  /** In a message from the mobile the destination is the party, and what follows it is left; in one
      from the network the originator is, and the destination is skipped. The reference is passed on
      and only the lowest three bits of the first octet are the type. */
  lemma AnyRpData(kind: Octet, ref: Octet, origin: seq<Octet>, dest: seq<Octet>, user: seq<Octet>)
    requires |origin| < 256 && |dest| < 256 && kind % 8 in {0, 1}
    ensures DecodeRp([kind, ref] + (Field(origin) + (Field(dest) + user)))
         == Decoded(0, kind % 8, ref, PartyOf(if kind % 8 == 0 then dest else origin), user)
  {
    hide DecodeRp, PartyOf, SkipLV;
    SkipField(origin, Field(dest) + user);
    SkipField(dest, user);
    if kind % 8 == 0 {
      PartyDecoded(kind, ref, Field(origin) + (Field(dest) + user), dest, user);
    } else {
      PartyDecoded(kind, ref, Field(origin) + (Field(dest) + user), origin, Field(dest) + user);
    }
  }

  /** Any other type passes with its reference, and nothing of the rest is looked at. */
  lemma OtherTypes(kind: Octet, ref: Octet, body: seq<Octet>)
    requires kind % 8 !in {0, 1}
    ensures DecodeRp([kind, ref] + body) == Decoded(0, kind % 8, ref, None, body)
  {
    Body(kind, ref, body);
  }

  /** A message of less than two octets has no type; one from the mobile fails exactly if nothing is
      left after the originator, or where it should be; no other message fails. */
  lemma FailsIff(b: seq<Octet>)
    requires |b| == 2 ==> b[0] % 8 != 1
    ensures DecodeRp(b).code == -1 <==> |b| < 2
    ensures DecodeRp(b).code == -2 <==> |b| >= 2 && b[0] % 8 == 0 && (|b| == 2 || |b| - 3 <= b[2])
    ensures DecodeRp(b).code in {0, -1, -2}
  {
    hide DecodedNumber;
  }

  /** An address whose length octet promises more than there is takes the rest of the message and is
      not decoded. */
  lemma AddressTooLong(ref: Octet, origin: seq<Octet>, promised: Octet, left: seq<Octet>)
    requires |origin| < 256 && promised > |left|
    ensures DecodeRp([0, ref] + (Field(origin) + ([promised] + left))) == Decoded(0, 0, ref, None, [])
    ensures DecodeRp([1, ref] + ([promised] + left)) == Decoded(0, 1, ref, None, [])
  {
    hide DecodedNumber;
    SkipField(origin, [promised] + left);
    Body(0, ref, Field(origin) + ([promised] + left));
    Body(1, ref, [promised] + left);
    NothingToSkip();
  }
}
