/** The state a handover carries over: printed by four classes and read back by four
    constructors (YBTSUE, YBTSConn, YBTSChan, YBTSCallDesc in ybts.cpp). */
module HandoverState {
  // ---- String operations ----

  /** find(c): the first position of c, or the length if there is none. */
  function Find(s: string, c: char): (n: nat)
    ensures n <= |s| && (n < |s| ==> s[n] == c)
  {
    if s == "" || s[0] == c then 0 else 1 + Find(s[1..], c)
  }

  predicate Has(s: string, c: char) {
    Find(s, c) < |s|
  }

  /** What stands before the first c, or everything. */
  function Head(s: string, c: char): string {
    s[..Find(s, c)]
  }

  /** What stands after the first c. */
  function Tail(s: string, c: char): (t: string)
    ensures Has(s, c) ==> |t| < |s|
  {
    if Has(s, c) then s[Find(s, c) + 1..] else ""
  }

  /** Extraction of a text of one character: everything up to and including it goes, or nothing
      if it does not occur. */
  function SkipPast(s: string, c: char): string {
    if Has(s, c) then Tail(s, c) else s
  }

  predicate IsDecimal(c: char) {
    '0' <= c <= '9'
  }

  function DigitsIn(s: string): (n: nat)
    ensures n <= |s| && forall i :: 0 <= i < n ==> IsDecimal(s[i])
  {
    if s == "" || !IsDecimal(s[0]) then 0 else 1 + DigitsIn(s[1..])
  }

  function Number(s: string): nat
    requires forall i :: 0 <= i < |s| ==> IsDecimal(s[i])
  {
    if s == "" then 0
    else
      assert IsDecimal(s[|s| - 1]);
      Number(s[..|s| - 1]) * 10 + (s[|s| - 1] - '0') as nat
  }

  /** Extraction of a number: the leading decimal digits, and `kept` stays if there are none. */
  function TakeNumber(s: string, kept: nat): (nat, string) {
    var n := DigitsIn(s);
    if n == 0 then (kept, s) else (Number(s[..n]), s[n..])
  }

  function Decimal(n: nat): (s: string)
    ensures s != "" && forall i :: 0 <= i < |s| ==> IsDecimal(s[i])
  {
    if n < 10 then ['0' + n as char] else Decimal(n / 10) + ['0' + (n % 10) as char]
  }

  lemma {:induction false} NumberOfDecimal(n: nat)
    ensures Number(Decimal(n)) == n
  {
    var s := Decimal(n);
    if n >= 10 {
      assert s[..|s| - 1] == Decimal(n / 10);
      NumberOfDecimal(n / 10);
    } else {
      assert s[..|s| - 1] == "";
    }
  }

  lemma {:induction false} DigitsInAppend(a: string, b: string)
    requires forall i :: 0 <= i < |a| ==> IsDecimal(a[i])
    requires b != "" ==> !IsDecimal(b[0])
    ensures DigitsIn(a + b) == |a|
  {
    if a == "" {
      assert a + b == b;
    } else {
      assert (a + b)[1..] == a[1..] + b;
      DigitsInAppend(a[1..], b);
    }
  }

  /** A printed number followed by something else is read back, and nothing more is taken. */
  lemma TakePrinted(n: nat, b: string, kept: nat)
    requires b != "" ==> !IsDecimal(b[0])
    ensures TakeNumber(Decimal(n) + b, kept) == (n, b)
  {
    var d := Decimal(n);
    DigitsInAppend(d, b);
    assert (d + b)[..|d|] == d && (d + b)[|d|..] == b;
    NumberOfDecimal(n);
  }

  /** Cutting at the first c of a + c + b gives a and b exactly if a is free of c. */
  lemma {:induction false} FindAt(a: string, c: char, b: string)
    ensures Find(a + [c] + b, c) <= |a|
    ensures Find(a + [c] + b, c) == |a| <==> c !in a
  {
    var s := a + [c] + b;
    if a == "" {
      assert s[0] == c;
    } else {
      assert s[1..] == a[1..] + [c] + b;
      FindAt(a[1..], c, b);
    }
  }

  lemma Cut(a: string, c: char, b: string)
    ensures var s := a + [c] + b;
      && Has(s, c)
      && (c !in a ==> Head(s, c) == a && Tail(s, c) == b)
      && (c in a ==> Head(s, c) != a)
  {
    FindAt(a, c, b);
    var s := a + [c] + b;
    assert s[..|a|] == a && s[|a| + 1..] == b;
  }

  lemma {:induction false} FindNone(s: string, c: char)
    ensures Find(s, c) == |s| <==> c !in s
  {
    if s != "" && s[0] != c {
      FindNone(s[1..], c);
    }
  }

  // ---- What is carried over ----

  datatype Ue = Ue(imsi: string, imei: string, tmsi: string)

  /** A call; the one printed first is the active one. */
  datatype Call = Call(regular: bool, incoming: bool, callRef: string, state: nat, called: string)

  datatype State = State(ue: Ue, traffic: nat, sapi: nat, status: string, cref: nat, calls: seq<Call>)
  {
    ghost predicate Valid() {
      traffic < 256 && sapi < 256 && cref < 256
    }
  }

  // ---- Printing ----

  function PrintUe(u: Ue): string {
    u.imsi + ":" + u.imei + ":" + u.tmsi
  }

  function Id(c: Call): string {
    (if c.incoming then "i" else "o") + c.callRef
  }

  function PrintCall(c: Call): string {
    (if c.regular then "|r:" else "|e:") + (Id(c) + ":" + (Decimal(c.state) + ":" + c.called))
  }

  function PrintCalls(calls: seq<Call>): string {
    if calls == [] then "" else PrintCall(calls[0]) + PrintCalls(calls[1..])
  }

  function PrintChan(s: State): string {
    s.status + ":" + (Decimal(s.cref) + PrintCalls(s.calls))
  }

  /** serialize() of the channel, which prints its connection, which prints its user. */
  function Print(s: State): string {
    PrintUe(s.ue) + " " + (Decimal(s.traffic) + ":" + (Decimal(s.sapi) + " " + PrintChan(s)))
  }

  // ---- Reading ----

  function ReadUe(s: string): (Ue, string) {
    if !Has(s, ':') then (Ue("", "", ""), s)
    else
      var s1 := Tail(s, ':');
      if !Has(s1, ':') then (Ue(Head(s, ':'), "", ""), s1)
      else
        var s2 := Tail(s1, ':');
        (Ue(Head(s, ':'), Head(s1, ':'), Head(s2, ' ')), Tail(s2, ' '))
  }

  /** The constructor from a call description. A '|' ends the called number but is not consumed:
      the code drops the result of the substr call that was meant to remove it. */
  function ReadCall(d: string): (r: (Call, string))
    requires d != ""
    ensures |r.1| <= |d|
  {
    var regular := d[0] != 'e';
    var d1 := SkipPast(d[1..], ':');
    var id := if Has(d1, ':') then Head(d1, ':') else "";
    var d2 := SkipPast(d1, ':');
    var (state, d3) := TakeNumber(d2, 0);
    var d4 := SkipPast(d3, ':');
    (Call(regular, id != "" && id[0] == 'i', if id == "" then "" else id[1..], state, Head(d4, '|')),
     if Has(d4, '|') then d4 else "")
  }

  /** Calls as long as the text goes on with '|'. A '|' at the very end, which is never printed,
      would start a call without a description and is not covered. */
  function ReadCalls(s: string): (seq<Call>, string)
    decreases |s|
  {
    if |s| < 2 || s[0] != '|' then ([], s)
    else
      var (c, rest) := ReadCall(s[1..]);
      var (cs, end) := ReadCalls(rest);
      ([c] + cs, end)
  }

  /** The state read back, and what was left unread. */
  function Read(s: string): (State, string) {
    var (ue, s1) := ReadUe(s);
    var (traffic, s2) := TakeNumber(s1, 0);
    var (sapi, s3) := TakeNumber(SkipPast(s2, ':'), 1);
    var s4 := SkipPast(s3, ' ');
    var status := if Has(s4, ':') then Head(s4, ':') else "";
    var (cref, s6) := TakeNumber(SkipPast(s4, ':'), 0);
    var (calls, end) := ReadCalls(s6);
    (State(ue, traffic % 256, sapi % 256, status, cref % 256, calls), end)
  }

  // ---- Round trip ----

  /** No field contains the character that ends it. */
  ghost predicate CallDelimited(c: Call) {
    ':' !in c.callRef && '|' !in c.called
  }

  ghost predicate Delimited(s: State) {
    && ':' !in s.ue.imsi && ':' !in s.ue.imei && ' ' !in s.ue.tmsi && ':' !in s.status
    && forall i :: 0 <= i < |s.calls| ==> CallDelimited(s.calls[i])
  }

  lemma ReadPrintedUe(u: Ue, tail: string)
    ensures ReadUe(PrintUe(u) + " " + tail) == (u, tail) <==> ':' !in u.imsi && ':' !in u.imei && ' ' !in u.tmsi
    ensures ':' in u.imsi || ':' in u.imei || ' ' in u.tmsi ==> ReadUe(PrintUe(u) + " " + tail).0 != u
  {
    hide Has, Head, Tail;
    var s2 := u.tmsi + [' '] + tail;
    var s1 := u.imei + [':'] + s2;
    var s := u.imsi + [':'] + s1;
    assert PrintUe(u) + " " + tail == s;
    Cut(u.imsi, ':', s1);
    if ':' !in u.imsi {
      Cut(u.imei, ':', s2);
      if ':' !in u.imei {
        Cut(u.tmsi, ' ', tail);
      }
    }
  }

  /** What follows a printed call: nothing, or another one. */
  predicate CallTail(t: string) {
    t == "" || t[0] == '|'
  }

  lemma PrintedCallsAreTail(calls: seq<Call>)
    ensures CallTail(PrintCalls(calls))
  {
  }

  lemma SkipCut(a: string, c: char, b: string)
    requires c !in a
    ensures SkipPast(a + [c] + b, c) == b
  {
    Cut(a, c, b);
  }

  lemma SkipFirst(c: char, b: string)
    ensures SkipPast([c] + b, c) == b
  {
    assert ([c] + b)[1..] == b;
  }

  lemma ReadPrintedHead(c: Call, tail: string)
    ensures var d := PrintCall(c)[1..] + tail;
      && d != "" && (d[0] != 'e') == c.regular
      && SkipPast(d[1..], ':') == Id(c) + [':'] + (Decimal(c.state) + ([':'] + (c.called + tail)))
  {
    var rest := Id(c) + [':'] + (Decimal(c.state) + ([':'] + (c.called + tail)));
    var d := PrintCall(c)[1..] + tail;
    assert d == [if c.regular then 'r' else 'e'] + ([':'] + rest);
    assert d[1..] == [':'] + rest;
    SkipFirst(':', rest);
  }

  lemma CalledNumber(called: string, tail: string)
    requires CallTail(tail) && '|' !in called
    ensures Head(called + tail, '|') == called && (Has(called + tail, '|') <==> tail != "")
  {
    if tail == "" {
      assert called + tail == called;
      FindNone(called, '|');
      assert called[..|called|] == called;
    } else {
      assert called + tail == called + ['|'] + tail[1..];
      Cut(called, '|', tail[1..]);
    }
  }

  /** One call is read back from its description, but its called number stays in front of what
      follows it. */
  lemma ReadPrintedCall(c: Call, tail: string)
    requires CallTail(tail) && CallDelimited(c)
    ensures PrintCall(c)[1..] + tail != ""
    ensures ReadCall(PrintCall(c)[1..] + tail) == (c, if tail == "" then "" else c.called + tail)
  {
    hide Decimal, TakeNumber, Number, Has, Head, Tail, SkipPast;
    var d4 := c.called + tail;
    var d2 := Decimal(c.state) + ([':'] + d4);
    ReadPrintedHead(c, tail);
    assert ':' !in Id(c);
    Cut(Id(c), ':', d2);
    SkipCut(Id(c), ':', d2);
    TakePrinted(c.state, [':'] + d4, 0);
    SkipFirst(':', d4);
    CalledNumber(c.called, tail);
    assert Id(c)[1..] == c.callRef;
  }

  /** The calls before the first one, the last excepted, whose called number is not empty. */
  function ReadableCalls(calls: seq<Call>): (n: nat)
    ensures n <= |calls|
  {
    if calls == [] then 0
    else if |calls| > 1 && calls[0].called != "" then 1
    else 1 + ReadableCalls(calls[1..])
  }

  lemma PrintedCallStarts(c: Call)
    ensures |PrintCall(c)| > 2 && PrintCall(c)[0] == '|'
  {
  }

  lemma PrintMore(calls: seq<Call>)
    requires |calls| > 1
    ensures |PrintCalls(calls[1..])| > 2 && PrintCalls(calls[1..])[0] == '|'
  {
    PrintedCallStarts(calls[1]);
    hide PrintCall;
    assert PrintCalls(calls[1..]) == PrintCall(calls[1]) + PrintCalls(calls[1..][1..]);
  }

  lemma PrintFirst(calls: seq<Call>)
    requires calls != []
    ensures PrintCalls(calls) == PrintCall(calls[0]) + PrintCalls(calls[1..])
    ensures |calls| == 1 ==> PrintCalls(calls[1..]) == ""
    ensures PrintCalls(calls)[1..] == PrintCall(calls[0])[1..] + PrintCalls(calls[1..])
    ensures |PrintCalls(calls)| > 1 && PrintCalls(calls)[0] == '|'
  {
    PrintedCallStarts(calls[0]);
    hide PrintCall;
  }

  /** The first of several printed calls is read back; what follows is read on with its called
      number in front. */
  lemma ReadFirstCall(calls: seq<Call>)
    requires calls != [] && CallDelimited(calls[0])
    ensures var on := if |calls| == 1 then "" else calls[0].called + PrintCalls(calls[1..]);
      ReadCalls(PrintCalls(calls)) == ([calls[0]] + ReadCalls(on).0, ReadCalls(on).1)
  {
    hide ReadCall, ReadCalls, PrintCall, CallDelimited;
    var c, tail, s := calls[0], PrintCalls(calls[1..]), PrintCalls(calls);
    PrintFirst(calls);
    if |calls| > 1 { PrintMore(calls); }
    hide PrintCalls;
    PrintedCallsAreTail(calls[1..]);
    ReadPrintedCall(c, tail);
    PrintedCallStarts(c);
    ReadsOne(s, c, if tail == "" then "" else c.called + tail);
  }

  lemma ReadsOne(s: string, c: Call, rest: string)
    requires |s| > 1 && s[0] == '|' && ReadCall(s[1..]) == (c, rest)
    ensures ReadCalls(s) == ([c] + ReadCalls(rest).0, ReadCalls(rest).1)
  {
    hide ReadCall;
  }

  /** Text that does not begin with '|' is no call. */
  lemma NumberIsNoCall(c: Call, tail: string)
    requires CallDelimited(c) && c.called != ""
    ensures c.called + tail != "" && ReadCalls(c.called + tail) == ([], c.called + tail)
  {
    hide ReadCall;
    assert (c.called + tail)[0] == c.called[0];
    assert c.called[0] in c.called;
  }

  lemma NoCalls()
    ensures ReadCalls("") == ([], "") && PrintCalls([]) == ""
  {
  }

  /** Reading stops after the first call that has a called number: all calls are restored, and
      nothing is left over, exactly if only the last one has one. */
  lemma {:induction false} ReadPrintedCalls(calls: seq<Call>)
    requires forall i :: 0 <= i < |calls| ==> CallDelimited(calls[i])
    ensures var n := ReadableCalls(calls);
      && ReadCalls(PrintCalls(calls)).0 == calls[..n]
      && (ReadCalls(PrintCalls(calls)).1 == "" <==> n == |calls|)
  {
    hide ReadCalls, PrintCalls, CallDelimited;
    NoCalls();
    if calls != [] {
      var c, rest := calls[0], calls[1..];
      ReadFirstCall(calls);
      if |calls| == 1 {
        assert ReadableCalls(calls) == 1;
        assert calls[..1] == [c] + [];
      } else if c.called != "" {
        NumberIsNoCall(c, PrintCalls(rest));
        assert calls[..1] == [c] + [];
      } else {
        ReadPrintedCalls(rest);
        assert c.called + PrintCalls(rest) == PrintCalls(rest);
        assert calls[..1 + ReadableCalls(rest)] == [c] + rest[..ReadableCalls(rest)];
      }
    }
  }

  /** The fields before the calls. */
  lemma ReadPrintedFront(s: State)
    requires s.Valid() && ':' !in s.ue.imsi && ':' !in s.ue.imei && ' ' !in s.ue.tmsi
    ensures var s4 := s.status + [':'] + (Decimal(s.cref) + PrintCalls(s.calls));
      var (r, end) := Read(Print(s));
      && r.ue == s.ue && r.traffic == s.traffic && r.sapi == s.sapi
      && r.status == Head(s4, ':')
      && (':' !in s.status ==> r.cref == s.cref && (r.calls, end) == ReadCalls(PrintCalls(s.calls)))
  {
    hide Decimal, TakeNumber, Number, Has, Head, Tail, SkipPast, ReadUe, PrintUe, PrintCalls, ReadCalls;
    var calls := PrintCalls(s.calls);
    var s4 := s.status + [':'] + (Decimal(s.cref) + calls);
    assert PrintChan(s) == s4;
    var s3 := [' '] + s4;
    var s2 := [':'] + (Decimal(s.sapi) + s3);
    var s1 := Decimal(s.traffic) + s2;
    assert Print(s) == PrintUe(s.ue) + " " + s1;
    ReadPrintedUe(s.ue, s1);
    TakePrinted(s.traffic, s2, 0);
    SkipFirst(':', Decimal(s.sapi) + s3);
    TakePrinted(s.sapi, s3, 1);
    SkipFirst(' ', s4);
    Cut(s.status, ':', Decimal(s.cref) + calls);
    PrintedCallsAreTail(s.calls);
    TakePrinted(s.cref, calls, 0);
    if ':' !in s.status {
      SkipCut(s.status, ':', Decimal(s.cref) + calls);
    }
  }

  /** A call with a delimiter inside is read back differently. */
  lemma UndelimitedCall(c: Call)
    requires !CallDelimited(c)
    ensures ReadCall(PrintCall(c)[1..] + "").0 != c
  {
    hide Decimal, TakeNumber, Number, Has, Head, Tail, SkipPast;
    var d2 := Decimal(c.state) + ([':'] + c.called);
    ReadPrintedHead(c, "");
    assert c.called + "" == c.called;
    Cut(Id(c), ':', d2);
    if ':' in c.callRef {
      assert ':' in Id(c);
      HeadShortens(Id(c), ':', d2);
    } else {
      assert ':' !in Id(c);
      SkipCut(Id(c), ':', d2);
      TakePrinted(c.state, [':'] + c.called, 0);
      SkipFirst(':', c.called);
      HeadOfMarked(c.called, '|');
    }
  }

  lemma HeadShortens(a: string, c: char, b: string)
    requires c in a
    ensures |Head(a + [c] + b, c)| < |a|
  {
    FindAt(a, c, b);
  }

  lemma HeadOfMarked(s: string, c: char)
    requires c in s
    ensures Head(s, c) != s
  {
    FindNone(s, c);
  }

  lemma UeIsReadFirst(s: State)
    ensures var rest := Decimal(s.traffic) + ":" + (Decimal(s.sapi) + " " + PrintChan(s));
      Read(Print(s)).0.ue == ReadUe(PrintUe(s.ue) + " " + rest).0
  {
  }

  lemma OneCall(c: Call)
    ensures PrintCalls([c]) == PrintCall(c)
    ensures ReadCalls(PrintCalls([c])) == ([c], "") <==> CallDelimited(c)
  {
    hide ReadCall, PrintCall;
    PrintedCallStarts(c);
    assert PrintCalls([c]) == PrintCall(c) + PrintCalls([c][1..]);
    assert PrintCall(c)[1..] == PrintCall(c)[1..] + "";
    if CallDelimited(c) {
      ReadPrintedCalls([c]);
      assert ReadableCalls([c]) == 1 && [c][..1] == [c];
    } else {
      UndelimitedCall(c);
    }
  }

  /** With one call, or none, the state is restored completely exactly if no field contains the
      character that ends it. */
  lemma HandoverRoundTripIff(s: State)
    requires s.Valid() && |s.calls| <= 1
    ensures Read(Print(s)) == (s, "") <==> Delimited(s)
  {
    hide Read, Print, ReadUe, PrintUe, PrintCalls, ReadCalls, Head, Tail;
    if ':' in s.ue.imsi || ':' in s.ue.imei || ' ' in s.ue.tmsi {
      UeIsReadFirst(s);
      var tail := Decimal(s.traffic) + ":" + (Decimal(s.sapi) + " " + PrintChan(s));
      ReadPrintedUe(s.ue, tail);
      assert PrintUe(s.ue) + " " + tail
          == PrintUe(s.ue) + " " + (Decimal(s.traffic) + ":" + (Decimal(s.sapi) + " " + PrintChan(s)));
      assert Read(Print(s)).0.ue != s.ue;
    } else {
      ReadPrintedFront(s);
      Cut(s.status, ':', Decimal(s.cref) + PrintCalls(s.calls));
      if |s.calls| == 1 {
        assert s.calls == [s.calls[0]];
        OneCall(s.calls[0]);
      } else {
        assert s.calls == [];
        ReadPrintedCalls([]);
        assert ReadCalls(PrintCalls(s.calls)) == ([], "");
      }
      var (r, end) := Read(Print(s));
      assert Read(Print(s)) == (r, end);
      if ':' !in s.status {
        assert r == s.(calls := r.calls);
        assert (r.calls, end) == (s.calls, "") <==> forall i :: 0 <= i < |s.calls| ==> CallDelimited(s.calls[i]);
      } else {
        assert r.status != s.status;
      }
    }
  }

  /** With several calls and no delimiters inside fields, all calls are restored exactly if every
      call but the last has an empty called number. */
  lemma SeveralCallsIff(s: State)
    requires s.Valid() && Delimited(s)
    ensures Read(Print(s)) == (s, "") <==> forall i :: 0 <= i < |s.calls| - 1 ==> s.calls[i].called == ""
  {
    hide Read, Print, PrintCalls, ReadCalls, Head, Tail;
    ReadPrintedFront(s);
    ReadPrintedCalls(s.calls);
    Cut(s.status, ':', Decimal(s.cref) + PrintCalls(s.calls));
    AllReadableIff(s.calls);
    assert s.calls[..|s.calls|] == s.calls;
  }

  lemma {:induction false} AllReadableIff(calls: seq<Call>)
    ensures ReadableCalls(calls) == |calls| <==> forall i :: 0 <= i < |calls| - 1 ==> calls[i].called == ""
  {
    if |calls| > 1 {
      AllReadableIff(calls[1..]);
      if calls[0].called == "" && ReadableCalls(calls[1..]) == |calls| - 1 {
        forall i | 0 <= i < |calls| - 1 ensures calls[i].called == "" {
          assert i > 0 ==> calls[i] == calls[1..][i - 1];
        }
      }
    }
  }
}
