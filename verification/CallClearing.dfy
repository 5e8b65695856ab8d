/** Call clearing (YBTSCallDesc, YBTSChan and YBTSDriver in ybts.cpp; section 5.4 of
    3GPP TS 24.008). A call lives in its channel's list until it is cleared from either side;
    if the mobile has still to confirm, it moves to the driver's list of terminated calls, where
    timers T305 and T308 run. */
module CallClearing {
  /** Call control states; the numbers of the standard are not needed here. A handover can restore
      any number as a state. */
  datatype CallState = Null | CallInitiated | ConnPending | CallProceeding | CallDelivered | CallPresent
                     | CallReceived | ConnectReq | CallConfirmed | Active | Disconnect | Release | Connect
                     | Restored(number: nat)

  datatype Msg = Setup | Emergency | ConnectMsg | Alerting | Confirmed | Rel | Rlc | Disc | ConnectAck
               | StatusEnq | Status | OtherMsg

  /** A call. `uid` is the object's identity, `id` the reference the mobile uses, which several
      calls can share; relSent counts the RELEASE messages sent. */
  datatype Call = Call(uid: nat, id: string, connId: nat, state: CallState, relSent: nat, timeout: nat)

  const SECOND := 1000000

  function Released(c: Call): Call {
    c.(state := Release, relSent := c.relSent + 1)
  }

  function WithTimeout(c: Call, ms: nat, now: nat): Call {
    c.(timeout := now + ms * 1000)
  }

  /** While a call is in its channel no RELEASE was sent for it. Its state can be any, also one of
      the clearing states if a handover restored it so. */
  predicate Live(c: Call) {
    c.relSent == 0
  }

  /** A call that waits for the mobile to confirm: DISCONNECT sent and no RELEASE, or one or two
      RELEASE. */
  predicate Clearing(c: Call) {
    (c.state == Disconnect && c.relSent == 0) || (c.state == Release && 1 <= c.relSent <= 2)
  }

  /** Timer expiries a clearing call can still take before it is dropped. */
  function Lives(c: Call): nat {
    if c.state == Disconnect then 3 else if c.relSent == 1 then 2 else 1
  }

  // ---- In the channel ----

  /** A call setup or progress message from the mobile, for a call found in the channel. */
  function Progressed(c: Call, m: Msg): Call {
    match m
    case ConnectMsg => if c.state in {CallConfirmed, CallReceived} then c.(state := Active) else c
    case Alerting => if c.state == CallConfirmed then c.(state := CallReceived) else c
    case Confirmed => if c.state == CallPresent then c.(state := CallConfirmed) else c
    case ConnectAck => if c.state == ConnectReq then c.(state := Active, timeout := 0) else c
    case _ => c
  }

  /** What a channel hands to the driver when it hangs a call up. */
  function HungUp(c: Call, t305: nat, t308: nat, now: nat): Call {
    if c.state == Active then WithTimeout(c.(state := Disconnect), t305, now)
    else WithTimeout(Released(c), t308, now)
  }

  lemma ProgressKeepsLive(c: Call, m: Msg)
    requires Live(c)
    ensures Live(Progressed(c, m))
  {
  }

  lemma HangupStartsClearing(c: Call, t305: nat, t308: nat, now: nat)
    requires Live(c)
    ensures Clearing(HungUp(c, t305, t308, now))
  {
  }

  // ---- In the driver's list ----

  /** A terminated call at a timer check: out of date ones send RELEASE again or are dropped. */
  function Expired(c: Call, time: nat, t308: nat, now: nat): seq<Call> {
    if c.timeout > time then [c]
    else if c.state == Disconnect || (c.state == Release && c.relSent == 1)
    then [WithTimeout(Released(c), t308, now)]
    else []
  }

  function Checked(cs: seq<Call>, time: nat, t308: nat, now: nat): seq<Call> {
    if cs == [] then [] else Expired(cs[0], time, t308, now) + Checked(cs[1..], time, t308, now)
  }

  /** A message from the mobile for a terminated call. */
  function Answered(c: Call, m: Msg, t308: nat, now: nat): seq<Call> {
    match m
    case Rlc => []
    case Rel => []
    case Disc => if c.state == Disconnect then [WithTimeout(Released(c), t308, now)] else []
    case _ => [c]
  }

  predicate Matches(c: Call, id: string, connId: nat) {
    c.id == id && c.connId == connId
  }

  /** The first terminated call with that reference on that connection answers. */
  function Handled(cs: seq<Call>, id: string, connId: nat, m: Msg, t308: nat, now: nat): seq<Call> {
    if cs == [] then []
    else if Matches(cs[0], id, connId) then Answered(cs[0], m, t308, now) + cs[1..]
    else [cs[0]] + Handled(cs[1..], id, connId, m, t308, now)
  }

  function WithoutConn(cs: seq<Call>, connId: nat): seq<Call> {
    if cs == [] then []
    else if cs[0].connId == connId then WithoutConn(cs[1..], connId)
    else [cs[0]] + WithoutConn(cs[1..], connId)
  }

  /** One step of a timer check, seen from position i of the list. */
  lemma CheckFirst(cs: seq<Call>, i: nat, time: nat, t308: nat, now: nat)
    requires i < |cs|
    ensures var c, rest := cs[i], Checked(cs[i + 1..], time, t308, now);
      && cs[..i] + Checked(cs[i..], time, t308, now) == cs[..i] + Expired(c, time, t308, now) + rest
      && (c.timeout > time ==> cs[..i + 1] + rest == cs[..i] + Checked(cs[i..], time, t308, now))
      && (Expired(c, time, t308, now) == [] ==>
            (cs[..i] + cs[i + 1..])[..i] + Checked((cs[..i] + cs[i + 1..])[i..], time, t308, now)
            == cs[..i] + Checked(cs[i..], time, t308, now))
      && (|Expired(c, time, t308, now)| == 1 ==>
            cs[i := Expired(c, time, t308, now)[0]][..i + 1]
            + Checked(cs[i := Expired(c, time, t308, now)[0]][i + 1..], time, t308, now)
            == cs[..i] + Checked(cs[i..], time, t308, now))
  {
    assert cs[i..][1..] == cs[i + 1..];
    assert (cs[..i] + cs[i + 1..])[i..] == cs[i + 1..];
    var e := Expired(cs[i], time, t308, now);
    if |e| == 1 {
      assert e == [e[0]];
      assert cs[i := e[0]][i + 1..] == cs[i + 1..];
      assert cs[i := e[0]][..i + 1] == cs[..i] + [e[0]];
    }
  }

  lemma CheckEnds(cs: seq<Call>, time: nat, t308: nat, now: nat)
    ensures cs[..0] + Checked(cs[0..], time, t308, now) == Checked(cs, time, t308, now)
    ensures cs[..|cs|] + Checked(cs[|cs|..], time, t308, now) == cs
  {
    assert cs[0..] == cs && cs[|cs|..] == [];
  }

  lemma {:induction false} CheckedKeepsClearing(cs: seq<Call>, time: nat, t308: nat, now: nat)
    requires forall c :: c in cs ==> Clearing(c)
    ensures forall c :: c in Checked(cs, time, t308, now) ==> Clearing(c)
  {
    if cs != [] {
      assert cs[0] in cs;
      CheckedKeepsClearing(cs[1..], time, t308, now);
    }
  }

  lemma {:induction false} HandledKeepsClearing(cs: seq<Call>, id: string, connId: nat, m: Msg, t308: nat, now: nat)
    requires forall c :: c in cs ==> Clearing(c)
    ensures forall c :: c in Handled(cs, id, connId, m, t308, now) ==> Clearing(c)
  {
    if cs != [] {
      assert cs[0] in cs;
      HandledKeepsClearing(cs[1..], id, connId, m, t308, now);
    }
  }

  /** Only the first matching call is touched. */
  lemma {:induction false} HandledAt(cs: seq<Call>, id: string, connId: nat, m: Msg, t308: nat, now: nat, i: nat)
    requires i <= |cs| && forall k :: 0 <= k < i ==> !Matches(cs[k], id, connId)
    requires i < |cs| ==> Matches(cs[i], id, connId)
    ensures Handled(cs, id, connId, m, t308, now)
         == if i == |cs| then cs else cs[..i] + Answered(cs[i], m, t308, now) + cs[i + 1..]
  {
    hide Answered, Matches;
    if i == 0 {
      assert cs != [] ==> cs[..0] + Answered(cs[0], m, t308, now) == Answered(cs[0], m, t308, now);
    } else {
      var rest := cs[1..];
      assert forall k :: 0 <= k < i - 1 ==> rest[k] == cs[k + 1];
      HandledAt(rest, id, connId, m, t308, now, i - 1);
      assert Handled(cs, id, connId, m, t308, now) == [cs[0]] + Handled(rest, id, connId, m, t308, now);
      hide Handled;
      if i < |cs| {
        Reassemble(cs, i, Answered(cs[i], m, t308, now));
      } else {
        assert cs == [cs[0]] + rest;
      }
    }
  }

  lemma Reassemble(cs: seq<Call>, i: nat, mid: seq<Call>)
    requires 0 < i < |cs|
    ensures [cs[0]] + (cs[1..][..i - 1] + mid + cs[1..][i..]) == cs[..i] + mid + cs[i + 1..]
  {
    assert cs[..i] == [cs[0]] + cs[1..][..i - 1];
    assert cs[1..][i..] == cs[i + 1..];
  }

  /** One step of a removal, seen from position i of the list. */
  lemma RemoveFirst(cs: seq<Call>, i: nat, connId: nat)
    requires i < |cs|
    ensures var all, left := cs[..i] + WithoutConn(cs[i..], connId), cs[..i] + cs[i + 1..];
      if cs[i].connId == connId then left[..i] + WithoutConn(left[i..], connId) == all
      else cs[..i + 1] + WithoutConn(cs[i + 1..], connId) == all
  {
    assert cs[i..][1..] == cs[i + 1..];
    var left := cs[..i] + cs[i + 1..];
    assert left[..i] == cs[..i] && left[i..] == cs[i + 1..];
    assert cs[..i + 1] == cs[..i] + [cs[i]];
  }

  lemma RemoveEnds(cs: seq<Call>, connId: nat)
    ensures cs[..0] + WithoutConn(cs[0..], connId) == WithoutConn(cs, connId)
    ensures cs[..|cs|] + WithoutConn(cs[|cs|..], connId) == cs
  {
    assert cs[0..] == cs && cs[|cs|..] == [];
  }

  lemma {:induction false} WithoutConnIsSubset(cs: seq<Call>, connId: nat)
    ensures forall c :: c in WithoutConn(cs, connId) <==> c in cs && c.connId != connId
  {
    if cs != [] {
      WithoutConnIsSubset(cs[1..], connId);
      assert cs == [cs[0]] + cs[1..];
    }
  }

  // ---- The objects ----

  class Driver {
    var terminated: seq<Call>
    var haveCalls: bool
    var t305: nat
    var t308: nat

    ghost predicate Valid()
      reads this
    {
      (forall c :: c in terminated ==> Clearing(c)) && (haveCalls <==> terminated != [])
    }

    constructor (t305: nat, t308: nat)
      ensures Valid() && terminated == [] && this.t305 == t305 && this.t308 == t308
    {
      terminated, haveCalls := [], false;
      this.t305, this.t308 := t305, t308;
    }

    /** addTerminatedCall. The timer the call came with is replaced by one second. */
    method AddTerminatedCall(call: Call, now: nat)
      requires Valid() && Clearing(call)
      modifies this`terminated, this`haveCalls
      ensures Valid() && terminated == old(terminated) + [call.(timeout := now + SECOND)]
    {
      var c := call;
      if c.timeout == 0 {
        c := WithTimeout(c, t305, now);
      }
      c := c.(timeout := now + SECOND);
      terminated := terminated + [c];
      haveCalls := true;
    }

    /** checkTerminatedCalls: `time` is the time of the timer message, `now` the clock. */
    method CheckTerminatedCalls(time: nat, now: nat)
      requires Valid()
      modifies this`terminated, this`haveCalls
      ensures Valid() && terminated == Checked(old(terminated), time, t308, now)
    {
      hide Checked, Clearing;
      CheckedKeepsClearing(terminated, time, t308, now);
      ghost var all := Checked(terminated, time, t308, now);
      CheckEnds(terminated, time, t308, now);
      var i := 0;
      while i < |terminated|
        invariant i <= |terminated| && t308 == old(t308)
        invariant terminated[..i] + Checked(terminated[i..], time, t308, now) == all
        decreases |terminated| - i
      {
        var c := terminated[i];
        CheckFirst(terminated, i, time, t308, now);
        if c.timeout > time {
          i := i + 1;
        } else if c.state == Disconnect || (c.state == Release && c.relSent == 1) {
          terminated := terminated[i := WithTimeout(Released(c), t308, now)];
          i := i + 1;
        } else {
          terminated := terminated[..i] + terminated[i + 1..];
        }
      }
      CheckEnds(terminated, time, t308, now);
      haveCalls := terminated != [];
    }

    /** handlePDU for a call control message whose call is in no channel. */
    method HandleCC(id: string, connId: nat, m: Msg, now: nat)
      requires Valid()
      modifies this`terminated, this`haveCalls
      ensures Valid() && terminated == Handled(old(terminated), id, connId, m, t308, now)
    {
      hide Clearing, Handled, Released, WithTimeout, Matches;
      ghost var cs := terminated;
      HandledKeepsClearing(cs, id, connId, m, t308, now);
      var i := FindTerminated(id, connId);
      HandledAt(cs, id, connId, m, t308, now, i);
      if i == |terminated| {
        return;
      }
      var c := terminated[i];
      if m in {Rlc, Rel, Disc} {
        if m == Disc && c.state == Disconnect {
          terminated := terminated[i := WithTimeout(Released(c), t308, now)];
          assert terminated == cs[..i] + Answered(c, m, t308, now) + cs[i + 1..];
          return;
        }
        terminated := terminated[..i] + terminated[i + 1..];
        haveCalls := terminated != [];
        assert terminated == cs[..i] + Answered(c, m, t308, now) + cs[i + 1..];
      } else {
        assert cs == cs[..i] + Answered(c, m, t308, now) + cs[i + 1..];
      }
    }

    method FindTerminated(id: string, connId: nat) returns (i: nat)
      ensures i <= |terminated| && forall k :: 0 <= k < i ==> !Matches(terminated[k], id, connId)
      ensures i < |terminated| ==> Matches(terminated[i], id, connId)
    {
      i := 0;
      while i < |terminated| && !Matches(terminated[i], id, connId)
        invariant i <= |terminated| && forall k :: 0 <= k < i ==> !Matches(terminated[k], id, connId)
      {
        i := i + 1;
      }
    }

    method RemoveTerminatedCall(connId: nat)
      requires Valid()
      modifies this`terminated, this`haveCalls
      ensures Valid() && terminated == WithoutConn(old(terminated), connId)
    {
      hide WithoutConn, Clearing;
      WithoutConnIsSubset(terminated, connId);
      ghost var all := WithoutConn(terminated, connId);
      RemoveEnds(terminated, connId);
      var i := 0;
      while i < |terminated|
        invariant i <= |terminated|
        invariant terminated[..i] + WithoutConn(terminated[i..], connId) == all
        decreases |terminated| - i
      {
        RemoveFirst(terminated, i, connId);
        if terminated[i].connId != connId {
          i := i + 1;
        } else {
          terminated := terminated[..i] + terminated[i + 1..];
        }
      }
      RemoveEnds(terminated, connId);
      haveCalls := terminated != [];
    }
  }

  /** A channel's calls. Hanging up moves all of them to the driver. */
  class Channel {
    var calls: seq<Call>

    ghost predicate Valid()
      reads this
    {
      forall c :: c in calls ==> Live(c)
    }

    /** handleCC for a call of this channel: what became of the call, and whether the channel has
        none left and hangs up. A call cleared by the mobile with DISCONNECT is answered with
        RELEASE and goes on the driver's list; RELEASE and RELEASE COMPLETE end it at once. */
    method HandleCC(i: nat, m: Msg, driver: Driver, now: nat) returns (hangup: bool)
      requires Valid() && driver.Valid() && i < |calls|
      modifies this`calls, driver`terminated, driver`haveCalls
      ensures Valid() && driver.Valid()
      ensures m !in {Rel, Rlc, Disc} ==> calls == old(calls)[i := Progressed(old(calls)[i], m)] && !hangup
      ensures m in {Rel, Rlc, Disc} ==> calls == old(calls)[..i] + old(calls)[i + 1..] && hangup == (calls == [])
      ensures driver.terminated == old(driver.terminated)
                + if m == Disc then [Released(old(calls)[i]).(timeout := now + SECOND)] else []
    {
      var call := calls[i];
      assert call in calls;
      hangup := false;
      if m in {Rel, Rlc, Disc} {
        calls := calls[..i] + calls[i + 1..];
        hangup := calls == [];
        if m == Disc {
          driver.AddTerminatedCall(WithTimeout(Released(call), driver.t308, now), now);
        }
      } else {
        ProgressKeepsLive(call, m);
        calls := calls[i := Progressed(call, m)];
      }
    }

    /** hangup: all calls go to the driver, unless the connection is released the hard way, when
        they are just forgotten. */
    method Hangup(driver: Driver, hard: bool, now: nat)
      requires Valid() && driver.Valid()
      modifies this`calls, driver`terminated, driver`haveCalls
      ensures Valid() && driver.Valid() && calls == []
      ensures var arrived := if hard then [] else Moved(old(calls), driver.t305, driver.t308, now);
        driver.terminated == old(driver.terminated) + arrived
    {
      if hard {
        calls := [];
      }
      var moved := calls;
      calls := [];
      var i := 0;
      while i < |moved|
        invariant i <= |moved| && calls == [] && driver.Valid()
        invariant driver.terminated == old(driver.terminated) + Moved(moved[..i], driver.t305, driver.t308, now)
      {
        hide Moved, HungUp, Clearing;
        assert moved[i] in moved;
        MovedMore(moved, i, driver.t305, driver.t308, now);
        HangupStartsClearing(moved[i], driver.t305, driver.t308, now);
        driver.AddTerminatedCall(HungUp(moved[i], driver.t305, driver.t308, now), now);
        i := i + 1;
      }
      assert moved[..i] == moved;
    }
  }

  lemma MovedMore(calls: seq<Call>, i: nat, t305: nat, t308: nat, now: nat)
    requires i < |calls|
    ensures Moved(calls[..i + 1], t305, t308, now)
         == Moved(calls[..i], t305, t308, now) + [HungUp(calls[i], t305, t308, now).(timeout := now + SECOND)]
  {
    assert calls[..i + 1][..i] == calls[..i];
  }

  /** The calls of a channel as they arrive in the driver's list. */
  function Moved(calls: seq<Call>, t305: nat, t308: nat, now: nat): (r: seq<Call>)
    ensures |r| == |calls|
  {
    if calls == [] then []
    else
      var n := |calls| - 1;
      Moved(calls[..n], t305, t308, now) + [HungUp(calls[n], t305, t308, now).(timeout := now + SECOND)]
  }
}
