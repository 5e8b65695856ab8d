/** The code that prints and reads the handover state (ybts.cpp): the readers take their part off
    the front of the text step by step. */
module HandoverCode {
  import opened HandoverState

  /** YBTSUE::YBTSUE. */
  method LoadUe(text: string) returns (ue: Ue, state: string)
    ensures (ue, state) == ReadUe(text)
  {
    hide Find;
    ue, state := Ue("", "", ""), text;
    var sep := Find(state, ':');
    if sep == |state| { return; }
    ue, state := ue.(imsi := state[..sep]), state[sep + 1..];
    sep := Find(state, ':');
    if sep == |state| { return; }
    ue, state := ue.(imei := state[..sep]), state[sep + 1..];
    sep := Find(state, ' ');
    ue := ue.(tmsi := state[..sep]);
    state := if sep == |state| then "" else state[sep + 1..];
  }

  /** YBTSCallDesc::YBTSCallDesc on a description. */
  method LoadCall(text: string) returns (call: Call, desc: string)
    requires text != ""
    ensures (call, desc) == ReadCall(text)
  {
    hide Find, TakeNumber;
    call, desc := Call(text[0] != 'e', false, "", 0, ""), text[1..];
    desc := SkipPast(desc, ':');
    var sep := Find(desc, ':');
    if sep < |desc| {
      var id := desc[..sep];
      call := call.(incoming := id != "" && id[0] == 'i', callRef := if id == "" then "" else id[1..]);
      desc := desc[sep + 1..];
    }
    assert desc == SkipPast(SkipPast(text[1..], ':'), ':');
    var (state, rest) := TakeNumber(desc, call.state);
    call := call.(state := state);
    desc := SkipPast(rest, ':');
    assert call == ReadCall(text).0.(called := "");
    sep := Find(desc, '|');
    call := call.(called := desc[..sep]);
    if sep == |desc| { desc := ""; }
  }

  /** The loop that ends YBTSChan::YBTSChan. */
  method LoadCalls(text: string) returns (calls: seq<Call>, state: string)
    ensures (calls, state) == ReadCalls(text)
  {
    hide ReadCall;
    calls, state := [], text;
    assert calls + ReadCalls(text).0 == ReadCalls(text).0;
    while |state| > 1 && state[0] == '|'
      invariant ReadCalls(text) == (calls + ReadCalls(state).0, ReadCalls(state).1)
      decreases |state|
    {
      ghost var before, done := state, calls;
      var call;
      call, state := LoadCall(state[1..]);
      assert ReadCalls(before) == ([call] + ReadCalls(state).0, ReadCalls(state).1);
      calls := calls + [call];
      assert done + ReadCalls(before).0 == calls + ReadCalls(state).0;
    }
    assert calls + [] == calls;
  }

  /** saveGsmState of the connection, then the constructor of the channel. */
  method Load(text: string) returns (s: State, state: string)
    ensures (s, state) == Read(text)
  {
    hide ReadUe, ReadCalls, TakeNumber, Find;
    var ue;
    ue, state := LoadUe(text);
    var (traffic, s2) := TakeNumber(state, 0);
    var (sapi, s3) := TakeNumber(SkipPast(s2, ':'), 1);
    state := SkipPast(s3, ' ');
    var status := "";
    var sep := Find(state, ':');
    if sep < |state| {
      status, state := state[..sep], state[sep + 1..];
    }
    assert state == SkipPast(SkipPast(s3, ' '), ':');
    var (cref, s6) := TakeNumber(state, 0);
    var calls;
    calls, state := LoadCalls(s6);
    s := State(ue, traffic % 256, sapi % 256, status, cref % 256, calls);
  }

  // ---- Printing ----

  /** A call in the channel's list; one that is being released is not printed. */
  datatype Listed = Listed(call: Call, relSent: bool)

  function Printed(cs: seq<Listed>): seq<Call> {
    if cs == [] then [] else (if cs[0].relSent then [] else [cs[0].call]) + Printed(cs[1..])
  }

  /** The list with the active call, if there is one, moved to the front. */
  function ActiveFirst(cs: seq<Listed>, active: nat): seq<Listed> {
    (if active < |cs| then [cs[active]] else []) + Others(cs, active)
  }

  function Others(cs: seq<Listed>, active: nat): seq<Listed> {
    if active < |cs| then cs[..active] + cs[active + 1..] else cs
  }

  lemma OthersUpTo(cs: seq<Listed>, i: nat, active: nat)
    requires i < |cs|
    ensures Others(cs[..i + 1], active) == Others(cs[..i], active) + (if i == active then [] else [cs[i]])
  {
    assert cs[..i + 1] == cs[..i] + [cs[i]];
  }

  lemma {:induction false} PrintedAppend(a: seq<Listed>, b: seq<Listed>)
    ensures Printed(a + b) == Printed(a) + Printed(b)
  {
    if a == [] {
      assert a + b == b;
    } else {
      assert (a + b)[1..] == a[1..] + b;
      PrintedAppend(a[1..], b);
    }
  }

  lemma {:induction false} PrintCallsAppend(a: seq<Call>, b: seq<Call>)
    ensures PrintCalls(a + b) == PrintCalls(a) + PrintCalls(b)
  {
    if a == [] {
      assert a + b == b;
    } else {
      assert (a + b)[1..] == a[1..] + b;
      PrintCallsAppend(a[1..], b);
    }
  }

  function PrintListed(cs: seq<Listed>): string {
    PrintCalls(Printed(cs))
  }

  lemma PrintOneMore(cs: seq<Listed>, c: Listed)
    ensures PrintListed(cs + [c]) == PrintListed(cs) + (if c.relSent then "" else PrintCall(c.call))
  {
    hide PrintCall;
    PrintedAppend(cs, [c]);
    assert Printed([c]) == if c.relSent then [] else [c.call];
    PrintCallsAppend(Printed(cs), Printed([c]));
    assert PrintCalls([c.call]) == PrintCall(c.call) + PrintCalls([c.call][1..]);
  }

  /** The part of YBTSChan::serialize that prints the calls: the active one first, then the others
      in their order. */
  method PrintChannelCalls(cs: seq<Listed>, active: nat) returns (str: string)
    ensures str == PrintListed(ActiveFirst(cs, active))
  {
    hide PrintCall, Printed, PrintListed, Others;
    str := "";
    ghost var done: seq<Listed> := [];
    assert PrintListed([]) == "" by { EmptyPrints(); }
    if active < |cs| {
      PrintOneMore([], cs[active]);
      if !cs[active].relSent { str := str + PrintCall(cs[active].call); }
      done := [cs[active]];
      assert [] + done == done;
    }
    var i := 0;
    ghost var head := done;
    assert Others(cs[..0], active) == [] && head + [] == head by { NoOthers(cs, active); }
    while i < |cs|
      invariant i <= |cs| && str == PrintListed(done)
      invariant done == head + Others(cs[..i], active)
    {
      OthersUpTo(cs, i, active);
      if i != active {
        PrintOneMore(done, cs[i]);
        if !cs[i].relSent { str := str + PrintCall(cs[i].call); }
        done := done + [cs[i]];
      }
      i := i + 1;
    }
    assert cs[..i] == cs;
  }

  lemma NoOthers(cs: seq<Listed>, active: nat)
    ensures Others(cs[..0], active) == []
  {
  }

  lemma EmptyPrints()
    ensures PrintListed([]) == ""
  {
  }
}
