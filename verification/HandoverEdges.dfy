/** What a handover restores from a text that is cut short, and which calls of a channel it carries
    (ybts.cpp). */
module HandoverEdges {
  import opened HandoverState
  import opened HandoverCode

  // ---- Texts that end early ----

  /** The state with what was read of it; the service access point is 1 if none was given. */
  function Partly(ue: Ue, traffic: nat, sapi: nat): State {
    State(ue, traffic, sapi, "", 0, [])
  }

  const NOBODY := Ue("", "", "")

  lemma NothingLeft(kept: nat)
    ensures TakeNumber("", kept) == (kept, "") && SkipPast("", ':') == "" && SkipPast("", ' ') == ""
    ensures !Has("", ':') && ReadCalls("") == ([], "")
  {
  }

  lemma OnlyNumber(n: nat, kept: nat)
    ensures TakeNumber(Decimal(n), kept) == (n, "") && !Has(Decimal(n), ':') && !Has(Decimal(n), ' ')
  {
    assert Decimal(n) + "" == Decimal(n);
    TakePrinted(n, "", kept);
    NoneInDigits(Decimal(n), ':');
    NoneInDigits(Decimal(n), ' ');
  }

  lemma NoneInDigits(s: string, c: char)
    requires (forall i :: 0 <= i < |s| ==> IsDecimal(s[i])) && !IsDecimal(c)
    ensures !Has(s, c)
  {
    FindNone(s, c);
  }

  lemma UserAlone(u: Ue)
    requires ':' !in u.imsi && ':' !in u.imei && ' ' !in u.tmsi
    ensures ReadUe(PrintUe(u)) == (u, "")
  {
    hide Has, Head, Tail;
    var s1 := u.imei + [':'] + u.tmsi;
    assert PrintUe(u) == u.imsi + [':'] + s1;
    Cut(u.imsi, ':', s1);
    Cut(u.imei, ':', u.tmsi);
    NoneIn(u.tmsi, ' ');
  }

  lemma NoneIn(s: string, c: char)
    requires c !in s
    ensures !Has(s, c) && Head(s, c) == s && Tail(s, c) == ""
  {
    FindNone(s, c);
  }

  /** What is read once the user part is off the text. */
  lemma ReadAfterUser(s: string, ue: Ue, rest: string, traffic: nat, more: string, sapi: nat)
    requires ReadUe(s) == (ue, rest) && TakeNumber(rest, 0) == (traffic, more)
    requires TakeNumber(SkipPast(more, ':'), 1) == (sapi, "")
    ensures Read(s) == (Partly(ue, traffic % 256, sapi % 256), "")
  {
    NothingLeft(0);
    hide ReadUe, TakeNumber, SkipPast, Has, ReadCalls;
  }

  /** A text cut off after the user, the traffic channel or the service access point restores what
      came before and the initial values for the rest; numbers are cut to eight bits. */
  lemma ReadCutShort(u: Ue, n: nat, m: nat)
    requires ':' !in u.imsi && ':' !in u.imei && ' ' !in u.tmsi
    ensures Read("") == (Partly(NOBODY, 0, 1), "")
    ensures Read(Decimal(n)) == (Partly(NOBODY, n % 256, 1), "")
    ensures Read(PrintUe(u)) == (Partly(u, 0, 1), "")
    ensures Read(PrintUe(u) + " " + Decimal(n)) == (Partly(u, n % 256, 1), "")
    ensures Read(PrintUe(u) + " " + (Decimal(n) + ([':'] + Decimal(m)))) == (Partly(u, n % 256, m % 256), "")
  {
    hide Decimal, TakeNumber, Number, SkipPast, ReadUe, PrintUe, Read, Has;
    NothingLeft(0);
    NothingLeft(1);
    OnlyNumber(n, 0);
    OnlyNumber(m, 1);
    WithoutUser("");
    WithoutUser(Decimal(n));
    UserAlone(u);
    ReadPrintedUe(u, Decimal(n));
    ReadPrintedUe(u, Decimal(n) + ([':'] + Decimal(m)));
    TakePrinted(n, [':'] + Decimal(m), 0);
    SkipFirst(':', Decimal(m));
    ReadAfterUser("", NOBODY, "", 0, "", 1);
    ReadAfterUser(Decimal(n), NOBODY, Decimal(n), n, "", 1);
    ReadAfterUser(PrintUe(u), u, "", 0, "", 1);
    ReadAfterUser(PrintUe(u) + " " + Decimal(n), u, Decimal(n), n, "", 1);
    ReadAfterUser(PrintUe(u) + " " + (Decimal(n) + ([':'] + Decimal(m))), u, Decimal(n) + ([':'] + Decimal(m)),
                  n, [':'] + Decimal(m), m);
  }

  lemma WithoutUser(s: string)
    requires !Has(s, ':')
    ensures ReadUe(s) == (NOBODY, s)
  {
  }

  // ---- The calls of a channel ----

  function UnreleasedCount(cs: seq<Listed>): nat {
    if cs == [] then 0 else UnreleasedCount(cs[..|cs| - 1]) + if cs[|cs| - 1].relSent then 0 else 1
  }

  lemma PrintedMore(cs: seq<Listed>, c: Listed)
    ensures Printed(cs + [c]) == Printed(cs) + if c.relSent then [] else [c.call]
  {
    PrintedAppend(cs, [c]);
    PrintedStart(c, []);
    assert [c] + [] == [c];
  }

  lemma {:induction false} PrintedCount(cs: seq<Listed>, c: Call)
    ensures |Printed(cs)| == UnreleasedCount(cs)
    ensures c in Printed(cs) <==> Listed(c, false) in cs
  {
    if cs != [] {
      var rest, last := cs[..|cs| - 1], cs[|cs| - 1];
      assert cs == rest + [last];
      PrintedMore(rest, last);
      PrintedCount(rest, c);
      hide Printed;
    }
  }

  lemma {:induction false} CountAppend(a: seq<Listed>, b: seq<Listed>)
    ensures UnreleasedCount(a + b) == UnreleasedCount(a) + UnreleasedCount(b)
    decreases |b|
  {
    if b == [] {
      assert a + b == a;
    } else {
      assert (a + b)[..|a + b| - 1] == a + b[..|b| - 1];
      CountAppend(a, b[..|b| - 1]);
    }
  }

  /** Without an active call the list is unchanged; with one, it is the list with that call at the
      front instead of its place. */
  lemma ActiveFirstIs(cs: seq<Listed>, active: nat, c: Listed)
    ensures c in ActiveFirst(cs, active) <==> c in cs
    ensures UnreleasedCount(ActiveFirst(cs, active)) == UnreleasedCount(cs)
  {
    if active < |cs| {
      var a, before, after := cs[active], cs[..active], cs[active + 1..];
      assert cs == before + ([a] + after);
      CountAppend(before, [a] + after);
      CountAppend([a], after);
      CountAppend([a], before + after);
      CountAppend(before, after);
      assert ActiveFirst(cs, active) == [a] + (before + after);
    } else {
      assert ActiveFirst(cs, active) == cs;
    }
  }

  lemma PrintedStart(c: Listed, rest: seq<Listed>)
    ensures Printed([c] + rest) == (if c.relSent then [] else [c.call]) + Printed(rest)
  {
    assert ([c] + rest)[1..] == rest;
  }

  /** The others keep their order. */
  lemma OthersInOrder(before: seq<Listed>, a: Listed, after: seq<Listed>)
    ensures Printed(ActiveFirst(before + [a] + after, |before|))
         == (if a.relSent then [] else [a.call]) + Printed(before) + Printed(after)
  {
    var cs := before + [a] + after;
    assert cs[..|before|] == before && cs[|before| + 1..] == after;
    PrintedStart(a, before + after);
    PrintedAppend(before, after);
  }

  /** A handover carries exactly the calls that are not being released, each once, and the active
      one, unless it is released too, first. */
  lemma CarriedCalls(cs: seq<Listed>, active: nat, c: Call)
    ensures var carried := Printed(ActiveFirst(cs, active));
      && |carried| == UnreleasedCount(cs)
      && (c in carried <==> Listed(c, false) in cs)
      && (active < |cs| && !cs[active].relSent ==> carried != [] && carried[0] == cs[active].call)
  {
    PrintedCount(ActiveFirst(cs, active), c);
    ActiveFirstIs(cs, active, Listed(c, false));
    if active < |cs| {
      PrintedStart(cs[active], Others(cs, active));
    }
  }

  /** Of those the target restores the active call, and all of them exactly if none but the last has
      a called number. */
  lemma RestoredCalls(cs: seq<Listed>, active: nat)
    requires forall i :: 0 <= i < |cs| ==> CallDelimited(cs[i].call)
    requires active < |cs| && !cs[active].relSent
    ensures var carried := Printed(ActiveFirst(cs, active));
      var restored := ReadCalls(PrintListed(ActiveFirst(cs, active))).0;
      && restored != [] && restored[0] == cs[active].call && restored <= carried
      && (restored == carried <==> forall i :: 0 <= i < |carried| - 1 ==> carried[i].called == "")
  {
    var carried := Printed(ActiveFirst(cs, active));
    forall i | 0 <= i < |carried| ensures CallDelimited(carried[i]) {
      CarriedCalls(cs, active, carried[i]);
      var j :| 0 <= j < |cs| && cs[j] == Listed(carried[i], false);
    }
    CarriedCalls(cs, active, cs[active].call);
    hide Printed, ReadCalls, PrintCalls, CallDelimited, ActiveFirst;
    ReadPrintedCalls(carried);
    AllReadableIff(carried);
    FirstReadable(carried);
  }

  lemma FirstReadable(calls: seq<Call>)
    ensures calls != [] ==> ReadableCalls(calls) >= 1
  {
  }
}
