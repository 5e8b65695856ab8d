/** The life of one call, exactly: how setup messages take it to the active state, what every event
    makes of it on the driver's list, and after how many timer expiries it leaves (ybts.cpp;
    sections 5.2 and 5.4 of 3GPP TS 24.008). */
module CallLife {
  import opened CallClearing
  import opened ClearingRuns

  // ---- Setup ----

  /** The call after the messages `ms`. */
  function ProgressedAll(c: Call, ms: seq<Msg>): Call {
    if ms == [] then c else Progressed(ProgressedAll(c, ms[..|ms| - 1]), ms[|ms| - 1])
  }

  predicate InOrder(ms: seq<Msg>, a: Msg, b: Msg, i: int, j: int) {
    0 <= i < j < |ms| && ms[i] == a && ms[j] == b
  }

  /** One message comes after another. */
  ghost predicate Follows(ms: seq<Msg>, a: Msg, b: Msg) {
    exists i, j :: InOrder(ms, a, b, i, j)
  }

  lemma FollowsMore(ms: seq<Msg>, m: Msg, a: Msg, b: Msg)
    ensures Follows(ms + [m], a, b) <==> Follows(ms, a, b) || (a in ms && m == b)
  {
    FollowsStill(ms, m, a, b);
    if Follows(ms + [m], a, b) {
      var i, j :| InOrder(ms + [m], a, b, i, j);
      assert ms[i] == a;
      assert j < |ms| ==> InOrder(ms, a, b, i, j);
    }
  }

  lemma FollowsStill(ms: seq<Msg>, m: Msg, a: Msg, b: Msg)
    ensures Follows(ms, a, b) || (a in ms && m == b) ==> Follows(ms + [m], a, b)
  {
    if Follows(ms, a, b) {
      var i, j :| InOrder(ms, a, b, i, j);
      assert InOrder(ms + [m], a, b, i, j);
    } else if a in ms && m == b {
      var i :| 0 <= i < |ms| && ms[i] == a;
      assert InOrder(ms + [m], a, b, i, |ms|);
    }
  }

  /** A call offered to the mobile becomes active exactly if it was confirmed and, at some time after
      that, connected; alerting in between or not. Messages in any other order change nothing. */
  lemma {:induction false} OfferedCall(c: Call, ms: seq<Msg>)
    requires c.state == CallPresent
    ensures var s := ProgressedAll(c, ms).state;
      && ProgressedAll(c, ms) == c.(state := s)
      && s in {CallPresent, CallConfirmed, CallReceived, Active}
      && (s == CallPresent <==> Confirmed !in ms)
      && (s == Active <==> Follows(ms, Confirmed, ConnectMsg))
      && (s == CallReceived <==> Follows(ms, Confirmed, Alerting) && !Follows(ms, Confirmed, ConnectMsg))
    decreases |ms|
  {
    if ms != [] {
      var n := |ms| - 1;
      OfferedCall(c, ms[..n]);
      FollowsMore(ms[..n], ms[n], Confirmed, ConnectMsg);
      FollowsMore(ms[..n], ms[n], Confirmed, Alerting);
      assert ms == ms[..n] + [ms[n]];
      hide Follows;
    }
  }

  /** A call the mobile asked for becomes active, and its setup timer stops, exactly if the mobile
      acknowledges the connection; no message moves a call in any other state. */
  lemma {:induction false} ConnectedCall(c: Call, ms: seq<Msg>)
    requires c.state !in {CallPresent, CallConfirmed, CallReceived}
    ensures ProgressedAll(c, ms)
         == if c.state == ConnectReq && ConnectAck in ms then c.(state := Active, timeout := 0) else c
    decreases |ms|
  {
    if ms != [] {
      ConnectedCall(c, ms[..|ms| - 1]);
      assert ms == ms[..|ms| - 1] + [ms[|ms| - 1]];
    }
  }

  // ---- Arrival on the list ----

  /** A call arrives with a timer of one second: in Disconnect if it was active and the network
      hangs up, otherwise in Release with the first RELEASE sent. */
  lemma ArrivesAs(w: World, e: Event, t: Timers)
    requires Orderly(w) && Enabled(w, e) && (e.Cleared? || e.HangUp?)
    ensures var c := w.live[e.uid];
      var first := e.HangUp? && c.state == Active;
      Next(w, e, t).terminated
        == w.terminated + [c.(state := if first then Disconnect else Release,
                              relSent := if first then 0 else 1, timeout := e.now + 1000000)]
  {
  }

  // ---- One step of the list ----

  lemma {:induction false} CheckedMember(cs: seq<Call>, time: nat, t308: nat, now: nat, d: Call)
    ensures d in Checked(cs, time, t308, now) <==> exists c :: c in cs && d in Expired(c, time, t308, now)
  {
    hide Expired;
    if cs != [] {
      CheckedMember(cs[1..], time, t308, now, d);
      assert forall c :: c in cs <==> c == cs[0] || c in cs[1..] by {
        assert cs == [cs[0]] + cs[1..];
      }
    }
  }

  /** At a timer check a call whose time has not come stays as it is; otherwise RELEASE is sent, a
      second time if need be, and T308 started, and after the second one the call is dropped. */
  lemma CheckedCall(w: World, e: Event, t: Timers, c: Call)
    requires Orderly(w) && e.Tick? && c in w.terminated
    ensures var cs := Next(w, e, t).terminated;
      && (c.timeout > e.time ==> c in cs)
      && (c.timeout <= e.time && c.state == Disconnect ==>
            c.(state := Release, relSent := 1, timeout := e.now + t.t308 * 1000) in cs)
      && (c.timeout <= e.time && c.state == Release && c.relSent == 1 ==>
            c.(state := Release, relSent := 2, timeout := e.now + t.t308 * 1000) in cs)
      && (Has(cs, c.uid) <==> c.timeout > e.time || c.relSent < 2)
  {
    var cs := Next(w, e, t).terminated;
    forall d ensures d in cs <==> exists b :: b in w.terminated && d in Expired(b, e.time, t.t308, e.now) {
      CheckedMember(w.terminated, e.time, t.t308, e.now, d);
    }
    forall d | d in cs && d.uid == c.uid ensures d in Expired(c, e.time, t.t308, e.now) {
      var b :| b in w.terminated && d in Expired(b, e.time, t.t308, e.now);
      SameCall(w.terminated, b, c);
    }
    if Expired(c, e.time, t.t308, e.now) != [] {
      assert Expired(c, e.time, t.t308, e.now)[0] in cs;
    }
    assert Clearing(c);
    hide Checked;
  }

  /** The message is for the call at position i: its reference and connection, and no call before it
      in the list has the same. */
  ghost predicate IsFor(cs: seq<Call>, i: nat, id: string, connId: nat)
    requires i < |cs|
  {
    cs[i].id == id && cs[i].connId == connId
    && forall k :: 0 <= k < i ==> !(cs[k].id == id && cs[k].connId == connId)
  }

  lemma OtherUid(cs: seq<Call>, i: nat, uid: nat)
    requires UniqueUids(cs) && i < |cs| && cs[i].uid == uid
    ensures !Has(cs[..i] + cs[i + 1..], uid)
  {
    var rest := cs[..i] + cs[i + 1..];
    forall k | 0 <= k < |rest| ensures rest[k].uid != uid {
      assert rest[k] == if k < i then cs[k] else cs[k + 1];
    }
  }

  lemma FirstMatch(cs: seq<Call>, i: nat, id: string, connId: nat) returns (j: nat)
    requires i < |cs|
    ensures j <= |cs| && forall k :: 0 <= k < j ==> !Matches(cs[k], id, connId)
    ensures j < |cs| ==> Matches(cs[j], id, connId)
    ensures j == i <==> IsFor(cs, i, id, connId)
  {
    j := 0;
    while j < |cs| && !Matches(cs[j], id, connId)
      invariant j <= |cs| && forall k :: 0 <= k < j ==> !Matches(cs[k], id, connId)
    {
      j := j + 1;
    }
  }

  /** A message not for the call leaves it as it is. RELEASE and RELEASE COMPLETE end it; DISCONNECT
      is answered with RELEASE, once: a call already in Release ends. */
  lemma AnsweredCall(w: World, e: Event, t: Timers, i: nat)
    requires Orderly(w) && e.Pdu? && i < |w.terminated|
    ensures var c, cs := w.terminated[i], Next(w, e, t).terminated;
      && (!IsFor(w.terminated, i, e.id, e.connId) || e.m !in {Rel, Rlc, Disc} ==> c in cs)
      && (IsFor(w.terminated, i, e.id, e.connId) ==>
            && (e.m == Disc && c.state == Disconnect ==>
                  c.(state := Release, relSent := 1, timeout := e.now + t.t308 * 1000) in cs)
            && (Has(cs, c.uid) <==> !(e.m in {Rel, Rlc} || (e.m == Disc && c.state == Release))))
  {
    hide Handled, Released;
    var cs, c := w.terminated, w.terminated[i];
    assert c in cs;
    var j := FirstMatch(cs, i, e.id, e.connId);
    HandledAt(cs, e.id, e.connId, e.m, t.t308, e.now, j);
    OtherUid(cs, i, c.uid);
    hide UniqueUids, IsFor, Matches;
    AnsweredIs(c, e.m, t.t308, e.now);
    if j == i {
      ReplacedAt(cs, i, Answered(c, e.m, t.t308, e.now), Next(w, e, t).terminated);
    } else if j < |cs| {
      assert c in cs[..j] + Answered(cs[j], e.m, t.t308, e.now) + cs[j + 1..] by {
        assert i < j ==> cs[..j][i] == c;
        assert i > j ==> cs[j + 1..][i - j - 1] == c;
      }
    }
  }

  lemma ReplacedAt(cs: seq<Call>, i: nat, a: seq<Call>, ds: seq<Call>)
    requires i < |cs| && |a| <= 1 && ds == cs[..i] + a + cs[i + 1..]
    requires !Has(cs[..i] + cs[i + 1..], cs[i].uid) && (forall d :: d in a ==> d.uid == cs[i].uid)
    ensures a != [] ==> a[0] in ds && Has(ds, cs[i].uid)
    ensures a == [] ==> !Has(ds, cs[i].uid)
  {
    if a == [] {
      assert ds == cs[..i] + cs[i + 1..];
    } else {
      assert ds[i] == a[0];
    }
  }

  lemma AnsweredIs(c: Call, m: Msg, t308: nat, now: nat)
    requires Clearing(c)
    ensures var a := Answered(c, m, t308, now);
      && (m in {Rel, Rlc} || (m == Disc && c.state == Release) ==> a == [])
      && (m == Disc && c.state == Disconnect ==>
            a == [c.(state := Release, relSent := 1, timeout := now + t308 * 1000)])
      && (m !in {Rel, Rlc, Disc} ==> a == [c])
      && |a| <= 1 && forall d :: d in a ==> d.uid == c.uid
  {
  }

  /** A call leaves the list exactly if its connection is lost, it is answered to the end, or its
      timer runs out after the second RELEASE. */
  lemma LeavesIff(w: World, e: Event, t: Timers, i: nat)
    requires Orderly(w) && Enabled(w, e) && i < |w.terminated|
    ensures var c := w.terminated[i];
      !Has(Next(w, e, t).terminated, c.uid)
      <==> || (e.ConnLost? && e.connId == c.connId)
           || (e.Pdu? && IsFor(w.terminated, i, e.id, e.connId)
               && (e.m in {Rel, Rlc} || (e.m == Disc && c.state == Release)))
           || (e.Tick? && c.timeout <= e.time && c.relSent == 2)
  {
    var c, cs := w.terminated[i], Next(w, e, t).terminated;
    assert c in w.terminated && Clearing(c);
    if e.Tick? {
      CheckedCall(w, e, t, c);
    } else if e.Pdu? {
      AnsweredCall(w, e, t, i);
    } else if e.ConnLost? {
      WithoutConnIsSubset(w.terminated, e.connId);
      forall d | d in cs && d.uid == c.uid ensures d == c {
        SameCall(w.terminated, c, d);
      }
    } else {
      assert c in cs;
    }
  }

  // ---- Only the timers ----

  /** Nothing but timer checks concerns calls of this reference and connection. */
  predicate OnlyChecks(e: Event, id: string, connId: nat) {
    match e
    case Pdu(i, k, m, _) => !(i == id && k == connId) || m !in {Rel, Rlc, Disc}
    case ConnLost(k) => k != connId
    case _ => true
  }

  /** The timer of the call: restarted by every expiry. */
  ghost function TimerAfter(w: World, es: seq<Event>, t: Timers, uid: nat, timeout: nat): nat
    requires Runs(w, es, t)
    decreases |es|
  {
    if es == [] then timeout
    else TimerAfter(Next(w, es[0], t), es[1..], t, uid,
                    if Expires(w, es[0], uid) then es[0].now + t.t308 * 1000 else timeout)
  }

  /** The call after n expiries. */
  function Resent(c: Call, n: nat, timeout: nat): Call {
    if n == 0 then c else c.(state := Release, relSent := c.relSent + n, timeout := timeout)
  }

  lemma ExpiresIff(w: World, e: Event, c: Call)
    requires Orderly(w) && c in w.terminated
    ensures Expires(w, e, c.uid) <==> e.Tick? && c.timeout <= e.time
  {
    if e.Tick? && (exists x :: x in w.terminated && x.uid == c.uid && x.timeout <= e.time) {
      var x :| x in w.terminated && x.uid == c.uid && x.timeout <= e.time;
      SameCall(w.terminated, x, c);
    }
  }

  /** A step with only checks: the call stays the same, sends RELEASE, or leaves after the second. */
  lemma StepOnlyChecks(w: World, e: Event, t: Timers, c: Call)
    requires Orderly(w) && Enabled(w, e) && c in w.terminated && OnlyChecks(e, c.id, c.connId)
    ensures var cs := Next(w, e, t).terminated;
      && (!Expires(w, e, c.uid) ==> c in cs)
      && (Expires(w, e, c.uid) && c.relSent < 2 ==> Resent(c, 1, e.now + t.t308 * 1000) in cs)
      && (Expires(w, e, c.uid) && c.relSent == 2 ==> !Has(cs, c.uid))
  {
    ExpiresIff(w, e, c);
    assert Clearing(c);
    if e.Tick? {
      CheckedCall(w, e, t, c);
    } else if e.Pdu? {
      var i :| 0 <= i < |w.terminated| && w.terminated[i] == c;
      AnsweredCall(w, e, t, i);
    } else if e.ConnLost? {
      WithoutConnIsSubset(w.terminated, e.connId);
    }
  }

  lemma GoneStaysGone(w: World, e: Event, t: Timers, uid: nat)
    requires Orderly(w) && Enabled(w, e) && uid < w.nextUid && uid !in w.live && !Has(w.terminated, uid)
    ensures var n := Next(w, e, t); uid < n.nextUid && uid !in n.live && !Has(n.terminated, uid)
    ensures !Expires(w, e, uid)
  {
    if OnList(e) {
      ListShrinks(w, e, t);
      forall d | d in Next(w, e, t).terminated ensures d.uid != uid {
        var c :| c in w.terminated && Becomes(c, e, t, d);
        StepOfCall(c, e, t, d);
      }
    } else if e.Cleared? || e.HangUp? {
      StepOfLive(w, e, t);
    }
  }

  lemma {:induction false} RunGone(w: World, es: seq<Event>, t: Timers, uid: nat)
    requires Orderly(w) && Runs(w, es, t) && uid < w.nextUid && uid !in w.live && !Has(w.terminated, uid)
    ensures !Has(After(w, es, t).terminated, uid) && Expiries(w, es, t, uid) == 0
    decreases |es|
  {
    hide Orderly, Has, Expires;
    if es != [] {
      GoneStaysGone(w, es[0], t, uid);
      StepOrderly(w, es[0], t);
      RunGone(Next(w, es[0], t), es[1..], t, uid);
    }
  }

  /** The call came as `c`, and n expiries later, the last of which restarted its timer to
      `timeout`, the list is `cs`: with RELEASE sent n times more the call is there, until exactly
      the third expiry if it came without one sent, the second if with one, the first if with two. */
  ghost predicate Aged(c: Call, n: nat, timeout: nat, cs: seq<Call>) {
    && n <= 3 - c.relSent
    && (Has(cs, c.uid) <==> n < 3 - c.relSent)
    && (n < 3 - c.relSent ==> Resent(c, n, timeout) in cs)
  }

  lemma AgedMore(c: Call, restart: nat, n: nat, timeout: nat, cs: seq<Call>)
    requires c.relSent < 2 && Aged(Resent(c, 1, restart), n, timeout, cs) && (n == 0 ==> timeout == restart)
    ensures Aged(c, n + 1, timeout, cs)
  {
    hide Has;
  }

  lemma AgedOut(c: Call, cs: seq<Call>, timeout: nat)
    requires c.relSent == 2 && !Has(cs, c.uid)
    ensures Aged(c, 1, timeout, cs)
  {
    hide Has;
  }

  lemma NotAged(c: Call, cs: seq<Call>)
    requires c in cs && Clearing(c)
    ensures Aged(c, 0, c.timeout, cs)
  {
  }

  /** A call of the list to which nothing happens but timer checks ages with every expiry. */
  lemma {:induction false} ChecksAlone(w: World, es: seq<Event>, t: Timers, c: Call)
    requires Orderly(w) && Runs(w, es, t) && c in w.terminated
    requires forall e :: e in es ==> OnlyChecks(e, c.id, c.connId)
    ensures Aged(c, Expiries(w, es, t, c.uid), TimerAfter(w, es, t, c.uid, c.timeout), After(w, es, t).terminated)
    decreases |es|
  {
    hide Orderly, Expires, OnlyChecks, Aged, Next, Has, Clearing;
    InList(w, c);
    if es == [] {
      NotAged(c, w.terminated);
    } else {
      var e, w' := es[0], Next(w, es[0], t);
      assert e in es;
      StepOnlyChecks(w, e, t, c);
      StepOrderly(w, e, t);
      var out, restart := Expires(w, e, c.uid), if e.Tick? then e.now + t.t308 * 1000 else 0;
      ExpiresIff(w, e, c);
      if out && c.relSent == 2 {
        GoneNow(w, e, t, c);
        RunGone(w', es[1..], t, c.uid);
        AgedOut(c, After(w', es[1..], t).terminated, TimerAfter(w', es[1..], t, c.uid, restart));
      } else {
        var d := if out then Resent(c, 1, restart) else c;
        forall x | x in es[1..] ensures OnlyChecks(x, d.id, d.connId) {
          assert x in es;
        }
        ChecksAlone(w', es[1..], t, d);
        NoRestart(w', es[1..], t, c.uid, d.timeout);
        if out {
          AgedMore(c, restart, Expiries(w', es[1..], t, c.uid), TimerAfter(w', es[1..], t, c.uid, restart),
                   After(w', es[1..], t).terminated);
        }
      }
    }
  }

  lemma InList(w: World, c: Call)
    requires Orderly(w) && c in w.terminated
    ensures Clearing(c) && c.relSent <= 2
  {
  }

  lemma {:induction false} NoRestart(w: World, es: seq<Event>, t: Timers, uid: nat, timeout: nat)
    requires Runs(w, es, t)
    ensures Expiries(w, es, t, uid) == 0 ==> TimerAfter(w, es, t, uid, timeout) == timeout
    decreases |es|
  {
    hide Expires;
    if es != [] {
      NoRestart(Next(w, es[0], t), es[1..], t, uid, timeout);
    }
  }

  lemma GoneNow(w: World, e: Event, t: Timers, c: Call)
    requires Orderly(w) && Enabled(w, e) && e.Tick? && c in w.terminated
    ensures c.uid < Next(w, e, t).nextUid && c.uid !in Next(w, e, t).live
  {
  }
}
