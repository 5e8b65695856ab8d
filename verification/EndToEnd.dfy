/** The send loop and the burst scheduler together (Transceiver::runRadioSendData calling
    ARFCN::getBurst, transceiver/transceiver.cpp): a pass sends consecutive slots and publishes the
    TX time at its end, while bursts are received at any time. */
module EndToEnd {
  import opened GsmTime
  import opened Downlink
  import opened QueueOrder
  import opened DownlinkRuns
  import SendLoop

  /** Where the send loop stands: between passes, or with slots `next` to `end` - 1 to send. */
  datatype Loop = Idle | Sending(next: Slots, end: Slots)

  datatype Machine = Machine(w: World, loop: Loop)

  datatype Step = StartPass(radioCurrent: Slots, txSlots: nat)   // radio time plus latency
                | SendNext                                       // sendBurst for the next slot
                | EndPass                                        // m_txTime is set
                | Other(e: Event)                                // what the other threads do

  /** The slots of a pass that begins now. */
  function First(m: Machine, s: Step): Slots
    requires s.StartPass?
  {
    SendLoop.Max(m.w.pub, s.radioCurrent)
  }

  function Last(m: Machine, s: Step): Slots
    requires s.StartPass?
  {
    SendLoop.Max(m.w.pub, s.radioCurrent + s.txSlots)
  }

  /** Radio and TX time are less than half a hyperframe apart, and a pass does not take the TX time
      further than half a hyperframe less the acceptance window. */
  ghost predicate Possible(m: Machine, s: Step) {
    match s
    case StartPass(radioCurrent, _) =>
      && m.loop.Idle? && -HALF < m.w.pub - radioCurrent < HALF
      && Last(m, s) - m.w.low + WINDOW < HALF
    case SendNext => m.loop.Sending? && m.loop.next < m.loop.end
    case EndPass => m.loop.Sending? && m.loop.next == m.loop.end
    case Other(e) => !e.Send? && !e.Publish? && Enabled(m.w, e)
  }

  /** What the scheduler sees of a step. */
  function Seen(m: Machine, s: Step): seq<Event> {
    match s
    case StartPass(_, _) => []
    case SendNext => if m.loop.Sending? then [Send(m.loop.next)] else []
    case EndPass => if m.loop.Sending? then [Publish(m.loop.end)] else []
    case Other(e) => [e]
  }

  /** The loop is inside its bounds. */
  ghost predicate Driven(m: Machine) {
    && Ordered(m.w)
    && (m.loop.Sending? ==> m.w.pub <= m.loop.next <= m.loop.end && m.loop.end - m.w.low + WINDOW < HALF)
  }

  /** The send loop never asks the scheduler for a step outside its window. */
  lemma SeenIsEnabled(m: Machine, s: Step)
    requires Driven(m) && Possible(m, s)
    ensures forall e :: e in Seen(m, s) ==> Enabled(m.w, e)
  {
  }

  ghost function Advance(m: Machine, s: Step): Machine
    requires Driven(m) && Possible(m, s)
  {
    SeenIsEnabled(m, s);
    match s
    case StartPass(_, _) => m.(loop := Sending(First(m, s), Last(m, s)))
    case SendNext => Machine(Next(m.w, Send(m.loop.next)), m.loop.(next := m.loop.next + 1))
    case EndPass => Machine(Next(m.w, Publish(m.loop.end)), Idle)
    case Other(e) => m.(w := Next(m.w, e))
  }

  lemma StepKeepsTimes(w: World, e: Event)
    requires Ordered(w) && Enabled(w, e)
    ensures Next(w, e).low >= w.low && Next(w, e).pub == if e.Publish? then e.p else w.pub
  {
    hide Got, Added, InWindow;
  }

  lemma StepIsDriven(m: Machine, s: Step)
    requires Driven(m) && Possible(m, s)
    ensures Driven(Advance(m, s))
  {
    hide Ordered, Next, Enabled;
    SeenIsEnabled(m, s);
    if !s.StartPass? {
      var e := Seen(m, s)[0];
      assert e in Seen(m, s);
      StepKeepsOrder(m.w, e);
      StepKeepsTimes(m.w, e);
    }
  }

  ghost predicate Runs(m: Machine, ss: seq<Step>)
    requires Driven(m)
    decreases |ss|
  {
    ss == [] || (Possible(m, ss[0]) && (StepIsDriven(m, ss[0]); Runs(Advance(m, ss[0]), ss[1..])))
  }

  ghost function AfterAll(m: Machine, ss: seq<Step>): (m': Machine)
    requires Driven(m) && Runs(m, ss)
    ensures Driven(m')
    decreases |ss|
  {
    if ss == [] then m else (StepIsDriven(m, ss[0]); AfterAll(Advance(m, ss[0]), ss[1..]))
  }

  ghost function SeenIn(m: Machine, ss: seq<Step>): seq<Event>
    requires Driven(m) && Runs(m, ss)
    decreases |ss|
  {
    if ss == [] then [] else (StepIsDriven(m, ss[0]); Seen(m, ss[0]) + SeenIn(Advance(m, ss[0]), ss[1..]))
  }

  /** Every run of the two together is a run of the scheduler, so all that is proved about the
      scheduler's runs holds when this loop drives it. */
  lemma {:induction false} LoopDrivesScheduler(m: Machine, ss: seq<Step>)
    requires Driven(m) && Runs(m, ss)
    ensures Run(m.w, SeenIn(m, ss), AfterAll(m, ss).w)
    decreases |ss|
  {
    hide Ordered, Next, Enabled;
    if ss != [] {
      StepIsDriven(m, ss[0]);
      LoopDrivesScheduler(Advance(m, ss[0]), ss[1..]);
      SeenIsEnabled(m, ss[0]);
      if Seen(m, ss[0]) == [] {
        assert [] + SeenIn(Advance(m, ss[0]), ss[1..]) == SeenIn(Advance(m, ss[0]), ss[1..]);
      } else {
        var e := Seen(m, ss[0])[0];
        assert e in Seen(m, ss[0]) && Seen(m, ss[0]) == [e];
        assert ([e] + SeenIn(Advance(m, ss[0]), ss[1..]))[1..] == SeenIn(Advance(m, ss[0]), ss[1..]);
      }
    }
  }

  // ---- A burst and its slot ----

  /** The next slot to be sent, unless a pass skips slots because of an underrun. */
  function Cursor(m: Machine): Slots {
    if m.loop.Sending? then m.loop.next else m.w.pub
  }

  /** The burst is queued and its slot, which is number `due`, is still to come. */
  ghost predicate Waits(m: Machine, b: Burst, due: Slots) {
    b in m.w.tx.queue && Cursor(m) <= due && Diff(b.time, Cursor(m)) == due - Cursor(m)
  }

  /** The step sends slot `due` and finds the burst there. */
  ghost predicate Sends(m: Machine, s: Step, b: Burst, due: Slots)
    requires Driven(m) && Possible(m, s)
  {
    && s.SendNext? && m.loop.next == due && ExactHit(m.w.tx.queue, due) == Some(b)
    && Got(m.w.tx, due, m.w.shaped).burst == (if m.w.shaped.Some? then m.w.shaped else Some(b))
  }

  lemma StaysQueued(s: TxState, t: Slots, shaped: Option<Burst>, low: Slots, width: nat, b: Burst)
    requires s.Valid() && InWindow(s.queue, low, width) && width < HALF && low <= t < low + HALF
    requires b in s.queue
    ensures Diff(b.time, t) > 0 ==> b in Got(s, t, shaped).state.queue
    ensures Diff(b.time, t) == 0 ==> ExactHit(s.queue, t) == Some(b)
  {
    GotRefinesMap(s, t, shaped, low, width);
    WindowMeansDescending(s.queue, low, width);
    AsMapIs(s.queue, b);
    SameSlotIffCongruent(b.time, t);
    hide Got;
    if Diff(b.time, t) > 0 {
      var m' := AsMap(Got(s, t, shaped).state.queue);
      assert Timeslot(b.time) in m' && m'[Timeslot(b.time)] == b;
    }
  }

  /** A step of the loop is a getBurst for the next slot. */
  lemma SendIsGot(m: Machine)
    requires Driven(m) && Possible(m, SendNext)
    ensures var t, m' := m.loop.next, Advance(m, SendNext);
      && m'.w.tx == Got(m.w.tx, t, m.w.shaped).state && Cursor(m) == t && Cursor(m') == t + 1
      && m.w.low <= t < m.w.low + HALF
  {
    hide Got, InWindow;
  }

  lemma SendWaits(m: Machine, b: Burst, due: Slots)
    requires Driven(m) && Possible(m, SendNext) && Waits(m, b, due)
    ensures Waits(Advance(m, SendNext), b, due) || Sends(m, SendNext, b, due)
  {
    hide Got, InWindow;
    var w, t := m.w, m.loop.next;
    SendIsGot(m);
    StaysQueued(w.tx, t, w.shaped, w.low, w.pub - w.low + WINDOW, b);
    if t < due {
      Diff1(b.time, t);
      hide Ordered, Diff, Advance, Next, Cursor;
    } else {
      HitIsReturned(w.tx, t, w.shaped);
      hide Ordered, Diff, Advance, Next;
    }
  }

  lemma HitIsReturned(s: TxState, t: Slots, shaped: Option<Burst>)
    requires s.Valid()
    ensures ExactHit(s.queue, t).Some?
        ==> Got(s, t, shaped).burst == if shaped.Some? then shaped else ExactHit(s.queue, t)
  {
  }

  lemma Diff1(a: Slots, t: Slots)
    requires Diff(a, t) > 0
    ensures Diff(a, t + 1) == Diff(a, t) - 1
  {
    DiffInWindow(t + 1, t);
    DiffSubtracts(a, t + 1, t);
  }

  lemma OthersKeepQueued(w: World, e: Event, b: Burst)
    requires Ordered(w) && Enabled(w, e) && !e.Send? && b in w.tx.queue
    ensures b in Next(w, e).tx.queue
  {
    hide InWindow, Diff;
    if e.Insert? {
      var q, n := w.tx.queue, Passed(w.tx.queue, w.hand.value.burst.time);
      hide OutcomeOf, Passed, CountIn;
      assert q == q[..n] + q[n..];
    }
  }

  /** A pass that resumes after an underrun has not skipped slot `due`. */
  ghost predicate Spares(m: Machine, s: Step, due: Slots) {
    s.StartPass? && Cursor(m) <= due ==> First(m, s) <= due
  }

  lemma StartWaits(m: Machine, s: Step, b: Burst, due: Slots)
    requires Driven(m) && Possible(m, s) && s.StartPass? && Waits(m, b, due) && Spares(m, s, due)
    ensures Waits(Advance(m, s), b, due)
  {
    hide Ordered;
    DiffInWindow(First(m, s), m.w.pub);
    DiffSubtracts(b.time, First(m, s), m.w.pub);
  }

  /** Until its slot a queued burst keeps waiting, and in its slot it is found and sent. */
  lemma StepWaits(m: Machine, s: Step, b: Burst, due: Slots)
    requires Driven(m) && Possible(m, s) && Waits(m, b, due) && Spares(m, s, due)
    ensures Waits(Advance(m, s), b, due) || Sends(m, s, b, due)
  {
    SeenIsEnabled(m, s);
    match s
    case StartPass(_, _) => StartWaits(m, s, b, due);
    case SendNext => SendWaits(m, b, due);
    case EndPass =>
      hide Ordered;
    case Other(e) =>
      OthersKeepQueued(m.w, e, b);
      StepKeepsTimes(m.w, e);
      hide Ordered, Next, Enabled;
  }

  ghost predicate SparesAll(m: Machine, ss: seq<Step>, due: Slots)
    requires Driven(m) && Runs(m, ss)
    decreases |ss|
  {
    ss == [] || (Spares(m, ss[0], due) && (StepIsDriven(m, ss[0]); SparesAll(Advance(m, ss[0]), ss[1..], due)))
  }

  /** Somewhere in the run the burst is sent, in slot `due`. */
  ghost predicate SentIn(m: Machine, ss: seq<Step>, b: Burst, due: Slots)
    requires Driven(m) && Runs(m, ss)
    decreases |ss|
  {
    ss != [] && (Sends(m, ss[0], b, due) || (StepIsDriven(m, ss[0]); SentIn(Advance(m, ss[0]), ss[1..], b, due)))
  }

  /** A queued burst whose slot is still to come, and is not skipped by an underrun, either waits on
      or has been sent in exactly its slot; once the loop is past the slot, it has been sent. */
  lemma {:induction false} SentInItsSlot(m: Machine, ss: seq<Step>, b: Burst, due: Slots)
    requires Driven(m) && Runs(m, ss) && Waits(m, b, due) && SparesAll(m, ss, due)
    ensures Waits(AfterAll(m, ss), b, due) || SentIn(m, ss, b, due)
    ensures Cursor(AfterAll(m, ss)) > due ==> SentIn(m, ss, b, due)
    decreases |ss|
  {
    hide Driven, Possible, Sends, Spares;
    if ss != [] {
      StepIsDriven(m, ss[0]);
      StepWaits(m, ss[0], b, due);
      if Waits(Advance(m, ss[0]), b, due) {
        hide Waits;
        SentInItsSlot(Advance(m, ss[0]), ss[1..], b, due);
      }
    }
  }

  /** addBurst makes a burst wait exactly if it takes it into the queue before its slot is reached. */
  lemma InsertedWaitsIff(m: Machine)
    requires Driven(m) && Possible(m, Other(Insert))
    ensures var p := m.w.hand.value; var d := Diff(p.burst.time, Cursor(m));
      OutcomeOf(m.w.tx.queue, p.burst, p.txTime) == Enqueued
      ==> (Waits(Advance(m, Other(Insert)), p.burst, Cursor(m) + (if d < 0 then 0 else d)) <==> d >= 0)
  {
    hide InWindow, Diff;
    var p, q := m.w.hand.value, m.w.tx.queue;
    if OutcomeOf(q, p.burst, p.txTime) == Enqueued {
      var n := Passed(q, p.burst.time);
      assert p.burst in q[..n] + [p.burst] + q[n..];
    }
  }

  // ---- Bursts that miss their slot ----

  /** Every queued burst is at or after the next slot. */
  ghost predicate Timely(m: Machine) {
    forall b :: b in m.w.tx.queue ==> Diff(b.time, Cursor(m)) >= 0
  }

  function ExpiredOnSend(m: Machine): nat {
    m.w.tx.stats.expiredOnSend
  }

  lemma NothingOlderIff(s: TxState, t: Slots, low: Slots, width: nat)
    requires s.Valid() && InWindow(s.queue, low, width) && width < HALF && low <= t < low + HALF
    ensures |Older(s.queue, t)| == 0 <==> forall b :: b in s.queue ==> Diff(b.time, t) >= 0
  {
    GotRefinesMap(s, t, None, low, width);
    hide Got, Older, InWindow, Diff;
    var older := Older(s.queue, t);
    assert |older| > 0 ==> older[0] in older;
  }

  lemma SendCounts(s: TxState, t: Slots, shaped: Option<Burst>)
    requires s.Valid()
    ensures Got(s, t, shaped).state.stats.expiredOnSend == s.stats.expiredOnSend + |Older(s.queue, t)|
  {
    hide Refilled, Older;
  }

  lemma LeftAfterSend(s: TxState, t: Slots, shaped: Option<Burst>)
    requires s.Valid()
    ensures forall b :: b in Got(s, t, shaped).state.queue ==> Diff(b.time, t + 1) >= 0
  {
    GotFillers(s, t, shaped);
    hide Got;
    forall b | b in s.queue[..Later(s.queue, t)] ensures Diff(b.time, t + 1) >= 0 {
      assert After(b.time, t);
      Diff1(b.time, t);
    }
  }

  /** A slot sent counts an expired burst exactly if a queued burst has already missed its slot, and
      afterwards no queued burst has. */
  lemma ExpiresIff(m: Machine)
    requires Driven(m) && Possible(m, SendNext)
    ensures ExpiredOnSend(Advance(m, SendNext)) == ExpiredOnSend(m) <==> Timely(m)
    ensures ExpiredOnSend(Advance(m, SendNext)) >= ExpiredOnSend(m)
    ensures Timely(Advance(m, SendNext))
  {
    hide Got, InWindow;
    var w, t := m.w, m.loop.next;
    SendIsGot(m);
    NothingOlderIff(w.tx, t, w.low, w.pub - w.low + WINDOW);
    SendCounts(w.tx, t, w.shaped);
    LeftAfterSend(w.tx, t, w.shaped);
    hide Older, Diff, Advance, Ordered, Next, Cursor;
  }

  lemma OthersCountNone(w: World, e: Event)
    requires Ordered(w) && Enabled(w, e) && !e.Send?
    ensures Next(w, e).tx.stats.expiredOnSend == w.tx.stats.expiredOnSend
  {
    hide InWindow, OutcomeOf;
  }

  /** Whenever a slot is sent no queued burst has missed its slot. */
  ghost predicate TimelySends(m: Machine, ss: seq<Step>)
    requires Driven(m) && Runs(m, ss)
    decreases |ss|
  {
    ss == [] || ((ss[0].SendNext? ==> Timely(m)) && (StepIsDriven(m, ss[0]); TimelySends(Advance(m, ss[0]), ss[1..])))
  }

  lemma StepCounts(m: Machine, s: Step)
    requires Driven(m) && Possible(m, s)
    ensures ExpiredOnSend(Advance(m, s)) >= ExpiredOnSend(m)
    ensures ExpiredOnSend(Advance(m, s)) == ExpiredOnSend(m) <==> (s.SendNext? ==> Timely(m))
  {
    hide Ordered, Enabled, Timely;
    SeenIsEnabled(m, s);
    if s.SendNext? {
      ExpiresIff(m);
    } else if !s.StartPass? {
      var e := Seen(m, s)[0];
      assert e in Seen(m, s);
      OthersCountNone(m.w, e);
      hide Next;
    }
  }

  /** Over a run the counter of bursts expired at send time never goes down, and it stays the same
      exactly if at every slot sent all queued bursts were still in time. */
  lemma {:induction false} NoneExpiresIff(m: Machine, ss: seq<Step>)
    requires Driven(m) && Runs(m, ss)
    ensures ExpiredOnSend(AfterAll(m, ss)) >= ExpiredOnSend(m)
    ensures ExpiredOnSend(AfterAll(m, ss)) == ExpiredOnSend(m) <==> TimelySends(m, ss)
    decreases |ss|
  {
    hide Driven, Possible, Timely, ExpiredOnSend;
    if ss != [] {
      StepIsDriven(m, ss[0]);
      StepCounts(m, ss[0]);
      NoneExpiresIff(Advance(m, ss[0]), ss[1..]);
    }
  }

  /** No slot is skipped, and no burst is taken into the queue after its slot. */
  ghost predicate Prompt(m: Machine, s: Step)
    requires Driven(m)
  {
    && (s.StartPass? ==> First(m, s) == m.w.pub)
    && (s == Other(Insert) && m.w.hand.Some? ==>
          OutcomeOf(m.w.tx.queue, m.w.hand.value.burst, m.w.hand.value.txTime) == Enqueued
          ==> Diff(m.w.hand.value.burst.time, Cursor(m)) >= 0)
  }

  lemma OthersQueueNone(w: World, e: Event, b: Burst)
    requires Ordered(w) && Enabled(w, e) && !e.Send? && b in Next(w, e).tx.queue && b !in w.tx.queue
    ensures e.Insert? && b == w.hand.value.burst && OutcomeOf(w.tx.queue, b, w.hand.value.txTime) == Enqueued
  {
    hide InWindow, OutcomeOf, Passed;
  }

  lemma PromptStaysTimely(m: Machine, s: Step)
    requires Driven(m) && Possible(m, s) && Prompt(m, s) && Timely(m)
    ensures Timely(Advance(m, s))
  {
    SeenIsEnabled(m, s);
    hide Ordered, Diff;
    if s.SendNext? {
      ExpiresIff(m);
    } else if s.Other? || s.EndPass? {
      var e := Seen(m, s)[0];
      assert e in Seen(m, s);
      StepKeepsTimes(m.w, e);
      forall b | b in Next(m.w, e).tx.queue && b !in m.w.tx.queue ensures Diff(b.time, Cursor(m)) >= 0 {
        OthersQueueNone(m.w, e, b);
      }
      hide Next, Enabled;
    }
  }

  ghost predicate PromptRun(m: Machine, ss: seq<Step>)
    requires Driven(m) && Runs(m, ss)
    decreases |ss|
  {
    ss == [] || (Prompt(m, ss[0]) && (StepIsDriven(m, ss[0]); PromptRun(Advance(m, ss[0]), ss[1..])))
  }

  lemma {:induction false} PromptSendsTimely(m: Machine, ss: seq<Step>)
    requires Driven(m) && Runs(m, ss) && PromptRun(m, ss) && Timely(m)
    ensures TimelySends(m, ss)
    decreases |ss|
  {
    hide Driven, Possible, Timely, Prompt;
    if ss != [] {
      StepIsDriven(m, ss[0]);
      PromptStaysTimely(m, ss[0]);
      PromptSendsTimely(Advance(m, ss[0]), ss[1..]);
    }
  }

  /** Without underruns and late bursts no burst ever expires at send time. */
  lemma PromptRunsExpireNothing(m: Machine, ss: seq<Step>)
    requires Driven(m) && Runs(m, ss) && PromptRun(m, ss) && Timely(m)
    ensures ExpiredOnSend(AfterAll(m, ss)) == ExpiredOnSend(m)
  {
    PromptSendsTimely(m, ss);
    NoneExpiresIff(m, ss);
  }
}
