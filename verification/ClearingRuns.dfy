/** Runs of call clearing: all channels, the driver's list of terminated calls and the mobile, with
    every critical section as one step. Several calls can have the same reference, of which only
    the first in the list answers, and connections can be lost at any time. */
module ClearingRuns {
  import opened CallClearing

  /** `live` are the calls of all channels, those a hangup has taken from its channel included. */
  datatype World = World(live: map<nat, Call>, terminated: seq<Call>, nextUid: nat)

  datatype Event =
    | Arrive(id: string, connId: nat, state: CallState)     // a new call, or one restored by handover
    | Progress(uid: nat, state: CallState, timeout: nat)    // anything that happens to a call in its channel
    | Forget(uid: nat)                                      // a call that ends without RELEASE
    | Cleared(uid: nat, now: nat)                           // DISCONNECT from the mobile
    | HangUp(uid: nat, now: nat)                            // the channel hangs the call up
    | Tick(time: nat, now: nat)                             // checkTerminatedCalls
    | Pdu(id: string, connId: nat, m: Msg, now: nat)        // a message for a call in no channel
    | ConnLost(connId: nat)                                 // removeTerminatedCall

  datatype Timers = Timers(t305: nat, t308: nat)

  predicate Enabled(w: World, e: Event) {
    match e
    case Progress(u, _, _) => u in w.live
    case Forget(u) => u in w.live
    case Cleared(u, _) => u in w.live
    case HangUp(u, _) => u in w.live
    case _ => true
  }

  /** A call as addTerminatedCall appends it. */
  function Appended(c: Call, now: nat): Call {
    c.(timeout := now + SECOND)
  }

  function Next(w: World, e: Event, t: Timers): World
    requires Enabled(w, e)
  {
    match e
    case Arrive(id, connId, state) =>
      w.(live := w.live[w.nextUid := Call(w.nextUid, id, connId, state, 0, 0)], nextUid := w.nextUid + 1)
    case Progress(u, state, timeout) =>
      w.(live := w.live[u := w.live[u].(state := state, timeout := timeout)])
    case Forget(u) => w.(live := w.live - {u})
    case Cleared(u, now) =>
      w.(live := w.live - {u}, terminated := w.terminated + [Appended(Released(w.live[u]), now)])
    case HangUp(u, now) =>
      w.(live := w.live - {u}, terminated := w.terminated + [Appended(HungUp(w.live[u], t.t305, t.t308, now), now)])
    case Tick(time, now) => w.(terminated := Checked(w.terminated, time, t.t308, now))
    case Pdu(id, connId, m, now) => w.(terminated := Handled(w.terminated, id, connId, m, t.t308, now))
    case ConnLost(connId) => w.(terminated := WithoutConn(w.terminated, connId))
  }

  predicate Runs(w: World, es: seq<Event>, t: Timers)
    decreases |es|
  {
    es == [] || (Enabled(w, es[0]) && Runs(Next(w, es[0], t), es[1..], t))
  }

  function After(w: World, es: seq<Event>, t: Timers): World
    requires Runs(w, es, t)
    decreases |es|
  {
    if es == [] then w else After(Next(w, es[0], t), es[1..], t)
  }

  /** No calls. */
  function Start(): (w: World)
    ensures Orderly(w)
  {
    World(map[], [], 0)
  }

  // ---- Invariants ----

  ghost predicate UniqueUids(cs: seq<Call>) {
    forall i, j :: 0 <= i < j < |cs| ==> cs[i].uid != cs[j].uid
  }

  ghost predicate Has(cs: seq<Call>, uid: nat) {
    exists c :: c in cs && c.uid == uid
  }

  /** A call without RELEASE in a channel, or one in the list that waits for the mobile. */
  ghost predicate Orderly(w: World) {
    && (forall u :: u in w.live ==> w.live[u].uid == u && u < w.nextUid && Live(w.live[u]))
    && (forall c :: c in w.terminated ==> c.uid < w.nextUid && c.uid !in w.live && Clearing(c))
    && UniqueUids(w.terminated)
  }

  /** What the list steps make of an entry. */
  predicate Becomes(c: Call, e: Event, t: Timers, d: Call) {
    match e
    case Tick(time, now) => d in Expired(c, time, t.t308, now)
    case Pdu(_, _, m, now) => d == c || d in Answered(c, m, t.t308, now)
    case _ => d == c
  }

  /** `ds` comes from `cs` by such a step. */
  ghost predicate Shrinks(cs: seq<Call>, e: Event, t: Timers, ds: seq<Call>) {
    && (forall d :: d in ds ==> exists c :: c in cs && Becomes(c, e, t, d))
    && (UniqueUids(cs) ==> UniqueUids(ds))
  }

  lemma UniqueFirst(cs: seq<Call>, head: seq<Call>, rest: seq<Call>)
    requires cs != [] && |head| <= 1 && UniqueUids(cs) && UniqueUids(rest)
    requires forall d :: d in head ==> d.uid == cs[0].uid
    requires forall d :: d in rest ==> Has(cs[1..], d.uid)
    ensures UniqueUids(head + rest)
  {
    var ds := head + rest;
    forall d | d in rest ensures d.uid != cs[0].uid {
      var c :| c in cs[1..] && c.uid == d.uid;
      var k :| 0 <= k < |cs| - 1 && cs[1..][k] == c;
      assert cs[k + 1] == c;
    }
    forall i, j | 0 <= i < j < |ds| ensures ds[i].uid != ds[j].uid {
      assert ds[j] == rest[j - |head|] && ds[j] in rest;
      assert i < |head| ==> ds[i] in head;
    }
  }

  lemma ShrinkFirst(cs: seq<Call>, e: Event, t: Timers, head: seq<Call>, rest: seq<Call>)
    requires cs != [] && |head| <= 1 && Shrinks(cs[1..], e, t, rest)
    requires forall d :: d in head ==> Becomes(cs[0], e, t, d) && d.uid == cs[0].uid
    requires forall d :: d in rest ==> Has(cs[1..], d.uid)
    ensures Shrinks(cs, e, t, head + rest)
    ensures forall d :: d in head + rest ==> Has(cs, d.uid)
  {
    assert forall c :: c in cs <==> c == cs[0] || c in cs[1..] by {
      assert cs == [cs[0]] + cs[1..];
    }
    if UniqueUids(cs) {
      UniqueFirst(cs, head, rest);
    }
    hide Becomes, UniqueUids;
  }

  lemma {:induction false} CheckedShrinks(cs: seq<Call>, e: Event, t: Timers)
    requires e.Tick?
    ensures Shrinks(cs, e, t, Checked(cs, e.time, t.t308, e.now))
    ensures forall d :: d in Checked(cs, e.time, t.t308, e.now) ==> Has(cs, d.uid)
  {
    if cs != [] {
      CheckedShrinks(cs[1..], e, t);
      ShrinkFirst(cs, e, t, Expired(cs[0], e.time, t.t308, e.now), Checked(cs[1..], e.time, t.t308, e.now));
    }
  }

  lemma {:induction false} SameShrinks(cs: seq<Call>, e: Event, t: Timers)
    requires !e.Tick?
    ensures Shrinks(cs, e, t, cs) && forall d :: d in cs ==> Has(cs, d.uid)
  {
    assert forall d :: d in cs ==> Becomes(d, e, t, d);
  }

  lemma {:induction false} HandledShrinks(cs: seq<Call>, e: Event, t: Timers)
    requires e.Pdu?
    ensures Shrinks(cs, e, t, Handled(cs, e.id, e.connId, e.m, t.t308, e.now))
    ensures forall d :: d in Handled(cs, e.id, e.connId, e.m, t.t308, e.now) ==> Has(cs, d.uid)
  {
    if cs != [] {
      if Matches(cs[0], e.id, e.connId) {
        SameShrinks(cs[1..], e, t);
        ShrinkFirst(cs, e, t, Answered(cs[0], e.m, t.t308, e.now), cs[1..]);
      } else {
        HandledShrinks(cs[1..], e, t);
        ShrinkFirst(cs, e, t, [cs[0]], Handled(cs[1..], e.id, e.connId, e.m, t.t308, e.now));
      }
    }
  }

  lemma {:induction false} WithoutConnShrinks(cs: seq<Call>, e: Event, t: Timers)
    requires e.ConnLost?
    ensures Shrinks(cs, e, t, WithoutConn(cs, e.connId))
    ensures forall d :: d in WithoutConn(cs, e.connId) ==> Has(cs, d.uid)
  {
    if cs != [] {
      WithoutConnShrinks(cs[1..], e, t);
      var head := if cs[0].connId == e.connId then [] else [cs[0]];
      assert [] + WithoutConn(cs[1..], e.connId) == WithoutConn(cs[1..], e.connId);
      ShrinkFirst(cs, e, t, head, WithoutConn(cs[1..], e.connId));
    }
  }

  /** An event on the list of terminated calls only. */
  predicate OnList(e: Event) {
    e.Tick? || e.Pdu? || e.ConnLost?
  }

  /** Every entry after such an event comes from one before. */
  lemma ListShrinks(w: World, e: Event, t: Timers)
    requires OnList(e)
    ensures Shrinks(w.terminated, e, t, Next(w, e, t).terminated)
  {
    match e
    case Tick(_, _) => CheckedShrinks(w.terminated, e, t);
    case Pdu(_, _, _, _) => HandledShrinks(w.terminated, e, t);
    case ConnLost(_) => WithoutConnShrinks(w.terminated, e, t);
  }

  /** What a step of the list does to a clearing call. */
  lemma StepOfCall(c: Call, e: Event, t: Timers, d: Call)
    requires Clearing(c) && OnList(e) && Becomes(c, e, t, d)
    ensures d.uid == c.uid && Clearing(d) && c.relSent <= d.relSent <= c.relSent + 1
    ensures d.relSent > c.relSent ==> Lives(d) < Lives(c)
    ensures d.relSent == c.relSent ==> d == c
    ensures e.Tick? && c.timeout <= e.time ==> Lives(d) < Lives(c)
    ensures Lives(d) <= Lives(c) <= 3
  {
  }

  /** The call a channel hands to the driver, as it arrives on the list. */
  function Arriving(w: World, e: Event, t: Timers): Call
    requires Enabled(w, e) && (e.Cleared? || e.HangUp?)
  {
    Appended(if e.Cleared? then Released(w.live[e.uid]) else HungUp(w.live[e.uid], t.t305, t.t308, e.now), e.now)
  }

  lemma StepOfLive(w: World, e: Event, t: Timers)
    requires Orderly(w) && Enabled(w, e) && (e.Cleared? || e.HangUp?)
    ensures Next(w, e, t) == World(w.live - {e.uid}, w.terminated + [Arriving(w, e, t)], w.nextUid)
    ensures var d := Arriving(w, e, t); d.uid == e.uid && Clearing(d) && d.relSent <= 1
  {
  }

  lemma AppendOrderly(w: World, uid: nat, last: Call)
    requires Orderly(w) && uid in w.live && last.uid == uid && Clearing(last)
    ensures Orderly(World(w.live - {uid}, w.terminated + [last], w.nextUid))
  {
    hide Clearing;
  }

  lemma ListOrderly(w: World, e: Event, t: Timers)
    requires Orderly(w) && OnList(e)
    ensures Orderly(Next(w, e, t))
  {
    var n := Next(w, e, t);
    assert n == w.(terminated := n.terminated);
    ListShrinks(w, e, t);
    hide Next, Becomes, Clearing, UniqueUids;
    forall d | d in n.terminated
      ensures d.uid < n.nextUid && d.uid !in n.live && Clearing(d)
    {
      var c :| c in w.terminated && Becomes(c, e, t, d);
      StepOfCall(c, e, t, d);
    }
  }

  lemma StepOrderly(w: World, e: Event, t: Timers)
    requires Orderly(w) && Enabled(w, e)
    ensures Orderly(Next(w, e, t)) && w.nextUid <= Next(w, e, t).nextUid
  {
    hide Clearing, Checked, Handled, WithoutConn;
    if OnList(e) {
      ListOrderly(w, e, t);
    } else if e.Cleared? || e.HangUp? {
      StepOfLive(w, e, t);
      hide Next, Orderly, Arriving;
      AppendOrderly(w, e.uid, Arriving(w, e, t));
    }
  }

  /** Over every run a call in a channel has sent no RELEASE, and a call on the list is in
      Disconnect without one or in Release with one or two. */
  lemma {:induction false} ListIsAlwaysClearing(w: World, es: seq<Event>, t: Timers)
    requires Orderly(w) && Runs(w, es, t)
    ensures Orderly(After(w, es, t))
    decreases |es|
  {
    if es != [] {
      StepOrderly(w, es[0], t);
      ListIsAlwaysClearing(Next(w, es[0], t), es[1..], t);
    }
  }

  // ---- Timer expiries of one call ----

  /** The timer of the call runs out at a check of the list. */
  ghost predicate Expires(w: World, e: Event, uid: nat) {
    e.Tick? && exists c :: c in w.terminated && c.uid == uid && c.timeout <= e.time
  }

  ghost function Expiries(w: World, es: seq<Event>, t: Timers, uid: nat): nat
    requires Runs(w, es, t)
    decreases |es|
  {
    if es == [] then 0
    else (if Expires(w, es[0], uid) then 1 else 0) + Expiries(Next(w, es[0], t), es[1..], t, uid)
  }

  /** The call can still take `n` expiries: 3 as long as it is not on the list. */
  ghost predicate CanExpire(w: World, uid: nat, n: int) {
    && n >= 0 && (uid in w.live || uid >= w.nextUid ==> n >= 3)
    && forall c :: c in w.terminated && c.uid == uid ==> n >= Lives(c)
  }

  lemma SameCall(cs: seq<Call>, c: Call, d: Call)
    requires UniqueUids(cs) && c in cs && d in cs && c.uid == d.uid
    ensures c == d
  {
    var i :| 0 <= i < |cs| && cs[i] == c;
    var j :| 0 <= j < |cs| && cs[j] == d;
  }

  lemma StepExpires(w: World, e: Event, t: Timers, uid: nat, n: int)
    requires Orderly(w) && Enabled(w, e) && CanExpire(w, uid, n)
    ensures CanExpire(Next(w, e, t), uid, if Expires(w, e, uid) then n - 1 else n)
  {
    var w' := Next(w, e, t);
    StepOrderly(w, e, t);
    if OnList(e) {
      ListShrinks(w, e, t);
      assert w' == w.(terminated := w'.terminated);
      hide Next, Becomes, Clearing, UniqueUids;
      forall d | d in w'.terminated && d.uid == uid
        ensures (if Expires(w, e, uid) then n - 1 else n) >= Lives(d)
      {
        var c :| c in w.terminated && Becomes(c, e, t, d);
        StepOfCall(c, e, t, d);
        if Expires(w, e, uid) {
          var x :| x in w.terminated && x.uid == uid && x.timeout <= e.time;
          SameCall(w.terminated, c, x);
        }
      }
    } else if e.Cleared? || e.HangUp? {
      StepOfLive(w, e, t);
      hide Next, Arriving;
      assert forall d :: d in w'.terminated ==> d in w.terminated || d == Arriving(w, e, t);
    }
  }

  lemma {:induction false} RunExpires(w: World, es: seq<Event>, t: Timers, uid: nat, n: int)
    requires Orderly(w) && Runs(w, es, t) && CanExpire(w, uid, n)
    ensures CanExpire(After(w, es, t), uid, n - Expiries(w, es, t, uid))
    decreases |es|
  {
    hide CanExpire, Orderly, Expires;
    if es != [] {
      StepOrderly(w, es[0], t);
      StepExpires(w, es[0], t, uid, n);
      RunExpires(Next(w, es[0], t), es[1..], t, uid, if Expires(w, es[0], uid) then n - 1 else n);
    }
  }

  /** Whatever mobiles send, whatever calls share its reference and whenever connections are lost,
      the timer of a terminated call runs out at most three times, and fewer while it is on the
      list: with the third it leaves. */
  lemma LeavesAfterThreeExpiries(w: World, es: seq<Event>, t: Timers, uid: nat)
    requires Orderly(w) && Runs(w, es, t)
    ensures Expiries(w, es, t, uid) <= 3
    ensures Has(After(w, es, t).terminated, uid) ==> Expiries(w, es, t, uid) < 3
  {
    RunExpires(w, es, t, uid, 3);
  }

  // ---- RELEASE messages for one call ----

  /** The counter of the call's entry in the list, 0 if it has none. */
  function SentIn(cs: seq<Call>, uid: nat): nat {
    if cs == [] then 0 else if cs[0].uid == uid then cs[0].relSent else SentIn(cs[1..], uid)
  }

  lemma {:induction false} SentInIs(cs: seq<Call>, uid: nat)
    ensures !Has(cs, uid) ==> SentIn(cs, uid) == 0
    ensures UniqueUids(cs) ==> forall c :: c in cs && c.uid == uid ==> SentIn(cs, uid) == c.relSent
  {
    if cs != [] {
      assert cs == [cs[0]] + cs[1..] && cs[0] in cs;
      SentInIs(cs[1..], uid);
      if UniqueUids(cs) {
        forall c | c in cs && c.uid == uid ensures SentIn(cs, uid) == c.relSent {
          if cs[0].uid == uid { SameCall(cs, cs[0], c); }
        }
      }
    }
  }

  function Sent(w: World, uid: nat): nat {
    if uid in w.live then w.live[uid].relSent else SentIn(w.terminated, uid)
  }

  /** A RELEASE is sent for the call: its counter goes up. */
  predicate Releases(w: World, e: Event, t: Timers, uid: nat)
    requires Enabled(w, e)
  {
    Sent(Next(w, e, t), uid) > Sent(w, uid)
  }

  function ReleasesIn(w: World, es: seq<Event>, t: Timers, uid: nat): nat
    requires Runs(w, es, t)
    decreases |es|
  {
    if es == [] then 0
    else (if Releases(w, es[0], t, uid) then 1 else 0) + ReleasesIn(Next(w, es[0], t), es[1..], t, uid)
  }

  /** How many RELEASE messages the call can still send: none once it is gone. */
  ghost function ReleasesLeft(w: World, uid: nat): int {
    if uid in w.live || Has(w.terminated, uid) then 2 - Sent(w, uid)
    else if uid < w.nextUid then 0 else 2
  }

  lemma ListReleases(w: World, e: Event, t: Timers, uid: nat)
    requires Orderly(w) && OnList(e)
    ensures 0 <= ReleasesLeft(Next(w, e, t), uid)
    ensures ReleasesLeft(Next(w, e, t), uid) + (if Releases(w, e, t, uid) then 1 else 0) <= ReleasesLeft(w, uid)
  {
    var w' := Next(w, e, t);
    ListShrinks(w, e, t);
    StepOrderly(w, e, t);
    SentInIs(w.terminated, uid);
    SentInIs(w'.terminated, uid);
    if Has(w'.terminated, uid) {
      var d :| d in w'.terminated && d.uid == uid;
      var c :| c in w.terminated && Becomes(c, e, t, d);
      StepOfCall(c, e, t, d);
    } else if Has(w.terminated, uid) {
      var c :| c in w.terminated && c.uid == uid;
    }
  }

  lemma {:induction false} SentInAppend(cs: seq<Call>, last: Call, uid: nat)
    ensures SentIn(cs + [last], uid)
         == if Has(cs, uid) then SentIn(cs, uid) else if last.uid == uid then last.relSent else 0
    ensures Has(cs + [last], uid) <==> Has(cs, uid) || last.uid == uid
  {
    if cs == [] {
      assert cs + [last] == [last] && last in [last];
    } else {
      SentInAppend(cs[1..], last, uid);
      assert (cs + [last])[1..] == cs[1..] + [last];
      assert cs == [cs[0]] + cs[1..] && cs[0] in cs;
      assert (cs + [last])[0] in cs + [last];
      assert forall c :: c in cs + [last] <==> c in cs || c == last;
      assert last in cs + [last];
    }
  }

  lemma LiveReleases(w: World, e: Event, t: Timers, uid: nat)
    requires Orderly(w) && Enabled(w, e) && !OnList(e)
    ensures 0 <= ReleasesLeft(Next(w, e, t), uid)
    ensures ReleasesLeft(Next(w, e, t), uid) + (if Releases(w, e, t, uid) then 1 else 0) <= ReleasesLeft(w, uid)
  {
    StepOrderly(w, e, t);
    LeftIsNat(w, uid);
    SentInIs(w.terminated, uid);
    if e.Cleared? || e.HangUp? {
      StepOfLive(w, e, t);
      SentInAppend(w.terminated, Arriving(w, e, t), uid);
      hide Next, Arriving, Has, SentIn, Clearing;
    } else {
      assert Next(w, e, t).terminated == w.terminated;
      hide Has, SentIn;
    }
  }

  lemma {:induction false} RunReleases(w: World, es: seq<Event>, t: Timers, uid: nat)
    requires Orderly(w) && Runs(w, es, t)
    ensures 0 <= ReleasesIn(w, es, t, uid) <= ReleasesLeft(w, uid)
    decreases |es|
  {
    if es == [] {
      LeftIsNat(w, uid);
    } else {
      hide ReleasesLeft, Releases, Orderly;
      StepOrderly(w, es[0], t);
      if OnList(es[0]) { ListReleases(w, es[0], t, uid); } else { LiveReleases(w, es[0], t, uid); }
      RunReleases(Next(w, es[0], t), es[1..], t, uid);
    }
  }

  lemma LeftIsNat(w: World, uid: nat)
    requires Orderly(w)
    ensures 0 <= ReleasesLeft(w, uid) <= 2
  {
    SentInIs(w.terminated, uid);
    hide SentIn;
  }

  /** Over any run, from its arrival in a channel on, at most two RELEASE messages are sent for a
      call. */
  lemma ReleasedAtMostTwice(w: World, es: seq<Event>, t: Timers, uid: nat)
    requires Orderly(w) && Runs(w, es, t)
    ensures ReleasesIn(w, es, t, uid) <= 2
  {
    RunReleases(w, es, t, uid);
    LeftIsNat(w, uid);
  }

  // ---- The list as a whole ----

  /** A check at which every timer of the list has run out. */
  predicate Sweeps(w: World, e: Event) {
    e.Tick? && forall c :: c in w.terminated ==> c.timeout <= e.time
  }

  function SweepsIn(w: World, es: seq<Event>, t: Timers): nat
    requires Runs(w, es, t)
    decreases |es|
  {
    if es == [] then 0
    else (if Sweeps(w, es[0]) then 1 else 0) + SweepsIn(Next(w, es[0], t), es[1..], t)
  }

  ghost predicate AtMost(w: World, lives: int) {
    forall c :: c in w.terminated ==> Lives(c) <= lives
  }

  lemma StepSweeps(w: World, e: Event, t: Timers, lives: int)
    requires Orderly(w) && Enabled(w, e) && !e.Cleared? && !e.HangUp? && AtMost(w, lives)
    ensures AtMost(Next(w, e, t), if Sweeps(w, e) then lives - 1 else lives)
  {
    if OnList(e) {
      ListShrinks(w, e, t);
      forall d | d in Next(w, e, t).terminated
        ensures Lives(d) <= if Sweeps(w, e) then lives - 1 else lives
      {
        var c :| c in w.terminated && Becomes(c, e, t, d);
        StepOfCall(c, e, t, d);
      }
    }
  }

  lemma {:induction false} RunSweeps(w: World, es: seq<Event>, t: Timers, lives: int)
    requires Orderly(w) && Runs(w, es, t) && AtMost(w, lives)
    requires forall e :: e in es ==> !e.Cleared? && !e.HangUp?
    ensures AtMost(After(w, es, t), lives - SweepsIn(w, es, t))
    decreases |es|
  {
    hide AtMost, Sweeps, Orderly;
    if es != [] {
      assert es[0] in es;
      StepOrderly(w, es[0], t);
      StepSweeps(w, es[0], t, lives);
      RunSweeps(Next(w, es[0], t), es[1..], t, if Sweeps(w, es[0]) then lives - 1 else lives);
    }
  }

  /** While no call is added, three checks at which all timers have run out empty the list, whatever
      messages and lost connections come in between. */
  lemma ThreeSweepsEmptyTheList(w: World, es: seq<Event>, t: Timers)
    requires Orderly(w) && Runs(w, es, t) && SweepsIn(w, es, t) >= 3
    requires forall e :: e in es ==> !e.Cleared? && !e.HangUp?
    ensures After(w, es, t).terminated == []
  {
    RunSweeps(w, es, t, 3);
    SomeLifeLeft(After(w, es, t).terminated);
  }

  lemma SomeLifeLeft(cs: seq<Call>)
    ensures cs != [] ==> exists c :: c in cs && Lives(c) > 0
  {
    if cs != [] {
      assert cs[0] in cs;
    }
  }
}
