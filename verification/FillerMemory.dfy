/** Which burst a carrier sends in an empty slot, over whole runs. The reference is a memory that
    knows nothing of the filler table's cells: bursts that came as fillers or outside the
    acceptance window wait for the next getBurst, which sets them and what it takes out of the
    queue; an empty slot sends the burst set last for its place in the multiframe. */
module FillerMemory {
  import opened Arithmetic
  import opened GsmTime
  import opened Downlink
  import opened Ownership
  import opened QueueOrder
  import opened DownlinkRuns
  import opened FillerContents

  /** Same timeslot number, and frames a whole number of multiframes apart. */
  predicate Congruent(a: Slots, b: Slots, modulus: nat)
    requires modulus > 0
  {
    Tn(a) == Tn(b) && (Fn(a) - Fn(b)) % modulus == 0
  }

  /** A burst that was set, and the multiframe of its timeslot at that moment. */
  datatype Setting = Setting(burst: Burst, modulus: nat)

  predicate Reaches(x: Setting, t: Slots, modulus: nat)
    requires x.modulus > 0 && modulus > 0
  {
    Tn(x.burst.time) == Tn(t) && Fn(x.burst.time) % x.modulus == Fn(t) % modulus
  }

  lemma SameRemainder(a: nat, b: nat, m: nat)
    requires m > 0
    ensures (a - b) % m == 0 <==> a % m == b % m
  {
    var qa, qb := a / m, b / m;
    assert a - b == (qa - qb) * m + (a % m - b % m);
    if a % m == b % m {
      var q, r := (a - b) / m, (a - b) % m;
      assert (qa - qb - q) * m == r;
      NonzeroMultiple(qa - qb - q, m);
    } else if (a - b) % m == 0 {
      var q := (a - b) / m;
      assert a - b == q * m;
      assert (qa - qb - q) * m == b % m - a % m;
      NonzeroMultiple(qa - qb - q, m);
    }
  }

  /** While the channel type stays the same, a setting reaches exactly the times congruent to its
      burst. */
  lemma ReachesIff(x: Setting, t: Slots, modulus: nat)
    requires x.modulus == modulus > 0
    ensures Reaches(x, t, modulus) <==> Congruent(x.burst.time, t, modulus)
  {
    SameRemainder(Fn(x.burst.time), Fn(t), modulus);
  }

  lemma CellsMeet(r: nat, n: nat, r': nat, n': nat)
    requires n < 8 && n' < 8
    ensures r * 8 + n == r' * 8 + n' <==> r == r' && n == n'
  {
  }

  /** Two times share a filler exactly if they are congruent modulo the multiframe of their slot. */
  lemma LookupIff(slots: seq<Slot>, a: Slots, b: Slots)
    requires ValidSlots(slots)
    ensures CellIndex(slots, a) == CellIndex(slots, b) <==> Congruent(a, b, slots[Tn(a)].modulus)
  {
    var m, m' := slots[Tn(a)].modulus, slots[Tn(b)].modulus;
    CellsMeet(Fn(a) % m, Tn(a), Fn(b) % m', Tn(b));
    SameRemainder(Fn(a), Fn(b), m);
  }

  /** Of two bursts set one after the other the first stays exactly if the second is not
      congruent to it; otherwise it goes to the store. */
  lemma EvictsIff(f: Fillers, slots: seq<Slot>, a: Burst, b: Burst)
    requires f.Valid() && ValidSlots(slots) && a != b
    ensures var f1 := SetFiller(f, slots, a);
      var f2 := SetFiller(f1, slots, b);
      var c := CellIndex(slots, a.time);
      && (f2.cells[c] == Held(a) <==> !Congruent(a.time, b.time, slots[Tn(a.time)].modulus))
      && f2.store == if f2.cells[c] != Held(a) then f1.store.Put(a)
                     else if f1.cells[CellIndex(slots, b.time)] in {Default, Held(b)} then f1.store
                     else f1.store.Put(f1.cells[CellIndex(slots, b.time)].burst)
  {
    LookupIff(slots, a.time, b.time);
    hide CellIndex;
  }

  // ---- The memory ----

  /** addBurst does not queue it: a filler, or outside the acceptance window of 204 frames. */
  predicate Rejected(b: Burst, txTime: Slots) {
    b.filler || Diff(b.time, txTime) < 0 || Diff(b.time, txTime) > 204 * 8
  }

  /** `waiting`, newest first, is what the next getBurst will set; `past` all that was set so far. */
  datatype Memory = Memory(waiting: seq<Burst>, past: seq<Setting>) {
    ghost predicate Valid() {
      forall x :: x in past ==> x.modulus in {26, 51, 102}
    }
  }

  ghost function Stamped(slots: seq<Slot>, bs: seq<Burst>): (h: seq<Setting>)
    requires ValidSlots(slots)
    ensures |h| == |bs|
    ensures forall k :: 0 <= k < |h| ==> h[k] == Setting(bs[k], slots[Tn(bs[k].time)].modulus)
  {
    seq(|bs|, k requires 0 <= k < |bs| => Setting(bs[k], slots[Tn(bs[k].time)].modulus))
  }

  /** What slot t makes filler data: the burst queued for it, except on a GPRS channel, and the
      queued bursts before it. */
  ghost function SpentBy(w: World, t: Slots): seq<Burst>
    requires w.tx.Valid()
  {
    var m := AsMap(w.tx.queue);
    (if Timeslot(t) in m && w.tx.slots[Tn(t)].chan != ChanIGprs then [m[Timeslot(t)]] else [])
    + Older(w.tx.queue, t)
  }

  ghost function Remember(m: Memory, w: World, e: Event): (m': Memory)
    requires w.tx.Valid() && Enabled(w, e)
    ensures m.Valid() ==> m'.Valid()
    ensures m.past <= m'.past
  {
    match e
    case Insert =>
      var p := w.hand.value;
      if Rejected(p.burst, p.txTime) then m.(waiting := [p.burst] + m.waiting) else m
    case Send(t) => Memory([], m.past + Stamped(w.tx.slots, m.waiting + SpentBy(w, t)))
    case _ => m
  }

  ghost function Recall(m: Memory, w: World, es: seq<Event>, w': World): (m': Memory)
    requires w.tx.Valid() && Run(w, es, w')
    ensures m.Valid() ==> m'.Valid()
    ensures m.past <= m'.past
    decreases |es|
  {
    if es == [] then m else Recall(Remember(m, w, es[0]), Next(w, es[0]), es[1..], w')
  }

  /** The last setting that reaches time t. */
  ghost function LastReaching(h: seq<Setting>, t: Slots, modulus: nat): Option<Burst>
    requires modulus > 0 && forall x :: x in h ==> x.modulus > 0
  {
    if h == [] then None
    else if Reaches(h[|h| - 1], t, modulus) then Some(h[|h| - 1].burst)
    else LastReaching(h[..|h| - 1], t, modulus)
  }

  lemma {:induction false} LastReachingIs(h: seq<Setting>, t: Slots, modulus: nat, k: nat)
    requires modulus > 0 && forall x :: x in h ==> x.modulus > 0
    ensures LastReaching(h, t, modulus) == None <==> forall x :: x in h ==> !Reaches(x, t, modulus)
    ensures k < |h| && Reaches(h[k], t, modulus) && (forall j :: k < j < |h| ==> !Reaches(h[j], t, modulus))
        ==> LastReaching(h, t, modulus) == Some(h[k].burst)
    decreases |h|
  {
    hide Reaches;
    if h != [] {
      var n := |h| - 1;
      assert h == h[..n] + [h[n]];
      LastReachingIs(h[..n], t, modulus, k);
    }
  }

  // ---- The table remembers the same ----

  /** The last setting that went to cell i. */
  ghost function LastAt(h: seq<Setting>, i: nat): Option<Burst>
    requires forall x :: x in h ==> x.modulus > 0
  {
    if h == [] then None
    else
      var x := h[|h| - 1];
      if Fn(x.burst.time) % x.modulus * 8 + Tn(x.burst.time) == i then Some(x.burst)
      else LastAt(h[..|h| - 1], i)
  }

  ghost predicate Remembers(w: World, m: Memory) {
    && w.tx.Valid() && Ordered(w) && m.Valid() && w.tx.expired == m.waiting
    && forall i :: 0 <= i < |w.tx.fillers.cells| ==> Content(w.tx.fillers.cells[i]) == LastAt(m.past, i)
  }

  lemma {:induction false} LastAtReaches(h: seq<Setting>, t: Slots, modulus: nat)
    requires modulus > 0 && forall x :: x in h ==> x.modulus > 0
    ensures LastAt(h, Fn(t) % modulus * 8 + Tn(t)) == LastReaching(h, t, modulus)
    decreases |h|
  {
    if h != [] {
      var x := h[|h| - 1];
      CellsMeet(Fn(x.burst.time) % x.modulus, Tn(x.burst.time), Fn(t) % modulus, Tn(t));
      LastAtReaches(h[..|h| - 1], t, modulus);
    }
  }

  lemma {:induction false} LastAtStamped(h: seq<Setting>, slots: seq<Slot>, bs: seq<Burst>, i: nat)
    requires ValidSlots(slots) && forall x :: x in h ==> x.modulus > 0
    ensures forall x :: x in h + Stamped(slots, bs) ==> x.modulus > 0
    ensures LastAt(h + Stamped(slots, bs), i) == Or(LastFor(slots, bs, i), LastAt(h, i))
    decreases |bs|
  {
    if bs == [] {
      assert h + Stamped(slots, bs) == h;
    } else {
      var n, all := |bs| - 1, h + Stamped(slots, bs);
      assert all[..|all| - 1] == h + Stamped(slots, bs[..n]);
      LastAtStamped(h, slots, bs[..n], i);
    }
  }

  lemma {:induction false} LastForAppend(slots: seq<Slot>, a: seq<Burst>, b: seq<Burst>, i: nat)
    requires ValidSlots(slots)
    ensures LastFor(slots, a + b, i) == Or(LastFor(slots, b, i), LastFor(slots, a, i))
    decreases |b|
  {
    hide CellIndex;
    if b == [] {
      assert a + b == a;
    } else {
      assert (a + b)[..|a + b| - 1] == a + b[..|b| - 1];
      LastForAppend(slots, a, b[..|b| - 1], i);
    }
  }

  /** What getBurst leaves in a cell is the last of the waiting and the spent bursts that goes
      there, or what it held. */
  lemma SendSets(w: World, t: Slots, i: nat)
    requires Ordered(w) && Enabled(w, Send(t)) && i < |w.tx.fillers.cells|
    ensures var f := Refilled(w.tx, t, w.shaped);
      && |f.cells| == |w.tx.fillers.cells|
      && Content(f.cells[i])
         == Or(LastFor(w.tx.slots, w.tx.expired + SpentBy(w, t), i), Content(w.tx.fillers.cells[i]))
  {
    hide Refilled, Older, CellIndex;
    var s, slots := w.tx, w.tx.slots;
    CellAfter(s, t, w.shaped, i);
    HitIsQueued(w, t);
    var exact := ExactHit(s.queue, t);
    var hit := if exact.Some? && slots[Tn(t)].chan != ChanIGprs then [exact.value] else [];
    assert SpentBy(w, t) == hit + Older(s.queue, t);
    LastForAppend(slots, s.expired, SpentBy(w, t), i);
    LastForAppend(slots, hit, Older(s.queue, t), i);
    assert LastFor(slots, [], i) == None;
    if hit != [] {
      assert hit[..0] == [];
    }
  }

  lemma HitIsQueued(w: World, t: Slots)
    requires Ordered(w) && Enabled(w, Send(t))
    ensures var m := AsMap(w.tx.queue);
      ExactHit(w.tx.queue, t) == if Timeslot(t) in m then Some(m[Timeslot(t)]) else None
  {
    hide Got;
    GotRefinesMap(w.tx, t, w.shaped, w.low, w.pub - w.low + WINDOW);
  }

  lemma SendRemembers(w: World, m: Memory, t: Slots)
    requires Remembers(w, m) && Enabled(w, Send(t))
    ensures Remembers(Next(w, Send(t)), Remember(m, w, Send(t)))
  {
    hide Got, Refilled, Ordered, SpentBy;
    var w', m' := Next(w, Send(t)), Remember(m, w, Send(t));
    StepKeepsOrder(w, Send(t));
    GotFillers(w.tx, t, w.shaped);
    SendSets(w, t, 0);
    forall i | 0 <= i < |w'.tx.fillers.cells|
      ensures Content(w'.tx.fillers.cells[i]) == LastAt(m'.past, i)
    {
      SendSets(w, t, i);
      LastAtStamped(m.past, w.tx.slots, m.waiting + SpentBy(w, t), i);
    }
  }

  /** Where addBurst leaves a burst and how it counts it: rejected ones wait to become fillers, and
      only one whose slot is taken goes to the store, which destroys it if it is full. */
  lemma AddedPlaces(s: TxState, b: Burst, txTime: Slots, low: Slots, width: nat)
    requires s.Valid() && InWindow(s.queue, low, width) && width < HALF
    requires low <= txTime && txTime - low + WINDOW <= width
    ensures var s', store, taken := Added(s, b, txTime), s.fillers.store, Timeslot(b.time) in AsMap(s.queue);
      && s'.expired == (if Rejected(b, txTime) then [b] + s.expired else s.expired)
      && s'.fillers.cells == s.fillers.cells
      && s'.fillers.store == (if Rejected(b, txTime) || !taken then store
                              else if |store.items| < 200 then store.(items := [b] + store.items)
                              else store.(deleted := store.deleted + multiset{b}))
      && AsMap(s'.queue) == (if Rejected(b, txTime) || taken then AsMap(s.queue)
                             else AsMap(s.queue)[Timeslot(b.time) := b])
      && s'.stats.lastIn == b.time
      && (forall n :: 0 <= n < 8 ==>
            s'.stats.dwInSlot[n] == s.stats.dwInSlot[n] + if n == Tn(b.time) then 1 else 0)
  {
    AddedRefinesMap(s, b, txTime, low, width);
    AcceptedDistance(b.time, txTime);
    hide Diff, InWindow, Passed, AsMap, Timeslot;
  }

  lemma InsertRemembers(w: World, m: Memory)
    requires Remembers(w, m) && Enabled(w, Insert)
    ensures Remembers(Next(w, Insert), Remember(m, w, Insert))
  {
    StepKeepsOrder(w, Insert);
    var p := w.hand.value;
    assert w.low <= p.txTime && p.txTime - w.low + WINDOW <= w.pub - w.low + WINDOW < HALF;
    AddedPlaces(w.tx, p.burst, p.txTime, w.low, w.pub - w.low + WINDOW);
    hide Ordered, Added, Rejected, OutcomeOf, AsMap, LastAt, InWindow;
  }

  lemma StepRemembers(w: World, m: Memory, e: Event)
    requires Remembers(w, m) && Enabled(w, e)
    ensures Remembers(Next(w, e), Remember(m, w, e))
  {
    if e.Send? {
      SendRemembers(w, m, e.t);
    } else if e.Insert? {
      InsertRemembers(w, m);
    } else {
      StepKeepsOrder(w, e);
      hide Ordered, LastAt;
    }
  }

  lemma {:induction false} RunRemembers(w: World, m: Memory, es: seq<Event>, w': World)
    requires Remembers(w, m) && Run(w, es, w')
    ensures Remembers(w', Recall(m, w, es, w'))
    decreases |es|
  {
    if es != [] {
      StepRemembers(w, m, es[0]);
      hide Remembers, Next;
      RunRemembers(Next(w, es[0]), Remember(m, w, es[0]), es[1..], w');
    }
  }

  const NOTHING := Memory([], [])

  lemma InitialRemembers(w: World)
    requires Initial(w)
    ensures Remembers(w, NOTHING)
  {
    InitialIsOrdered(w);
  }

  // ---- What an empty slot sends ----

  /** Synchronisation bursts belong on carrier 0, timeslot 0, frames 1, 11, 21, 31 and 41 of the
      51-multiframe. */
  predicate IsSync(s: TxState, t: Slots) {
    s.index == 0 && Tn(t) == 0 && Fn(t) % 51 % 10 == 1
  }

  /** getBurst for slot t finds nothing to send but a filler. */
  ghost predicate Empty(w: World, t: Slots) {
    w.shaped == None && Timeslot(t) !in AsMap(w.tx.queue) && !IsSync(w.tx, t)
  }

  /** The cell an empty slot is sent from, after getBurst has set what it had to. */
  lemma EmptyIsFilled(w: World, t: Slots)
    requires Ordered(w) && Enabled(w, Send(t)) && Empty(w, t)
    ensures var f, i := Next(w, Send(t)).tx.fillers, Fn(t) % w.tx.slots[Tn(t)].modulus * 8 + Tn(t);
      i < |f.cells| && Got(w.tx, t, None).burst == Or(Content(f.cells[i]), w.tx.dummy)
  {
    GotReturns(w.tx, t, w.low, w.pub - w.low + WINDOW);
    hide Got, InWindow, AsMap, Timeslot;
  }

  lemma EmptySends(w: World, m: Memory, t: Slots)
    requires Remembers(w, m) && Enabled(w, Send(t)) && Empty(w, t)
    ensures Got(w.tx, t, None).burst
         == Or(LastReaching(Remember(m, w, Send(t)).past, t, w.tx.slots[Tn(t)].modulus), w.tx.dummy)
  {
    hide Ordered, Next, Enabled, Got, Empty, Remember;
    SendRemembers(w, m, t);
    EmptyIsFilled(w, t);
    LastAtReaches(Remember(m, w, Send(t)).past, t, w.tx.slots[Tn(t)].modulus);
  }

  /** After any run from a new carrier an empty slot sends the last burst ever set whose timeslot
      number is the slot's and whose frame is at the same place in the multiframe, this getBurst's
      own settings included, and the default filler exactly if there is none. */
  lemma EmptySlotSends(w: World, es: seq<Event>, w': World, t: Slots)
    requires Initial(w) && Run(w, es, w') && Enabled(w', Send(t)) && Empty(w', t)
    ensures w'.tx.Valid()
    ensures var h := Remember(Recall(NOTHING, w, es, w'), w', Send(t)).past;
      Got(w'.tx, t, None).burst == Or(LastReaching(h, t, w'.tx.slots[Tn(t)].modulus), w'.tx.dummy)
  {
    InitialRemembers(w);
    RunRemembers(w, NOTHING, es, w');
    hide Initial, Run, Enabled, Next;
    EmptySends(w', Recall(NOTHING, w, es, w'), t);
  }

  /** A synchronisation slot with nothing queued for it sends nothing and is counted, and no other
      slot is. */
  lemma SyncSlotSends(w: World, t: Slots)
    requires Ordered(w) && Enabled(w, Send(t)) && w.shaped == None
    ensures var r, missed := Got(w.tx, t, None), IsSync(w.tx, t) && Timeslot(t) !in AsMap(w.tx.queue);
      && (missed ==> r.burst == None)
      && r.state.stats.missedSync == w.tx.stats.missedSync + if missed then 1 else 0
  {
    hide Got, InWindow, AsMap, Timeslot, Refilled, ShouldBeSync, IsSync, CellIndex, Diff, ValidSlots;
    SyncIff(w.tx, t);
    GotReturns(w.tx, t, w.low, w.pub - w.low + WINDOW);
  }

  lemma SyncIff(s: TxState, t: Slots)
    ensures s.index == 0 && ShouldBeSync(t) <==> IsSync(s, t)
  {
  }

  /** A burst that came as a filler or outside the acceptance window is set by the next getBurst,
      and from then on every empty slot it reaches sends it, unless a later setting reaches that
      slot too. */
  lemma RejectedIsSent(w: World, m: Memory, between: seq<Event>, w1: World, t: Slots,
                       after: seq<Event>, w2: World, t': Slots) returns (k: nat)
    requires Remembers(w, m) && Enabled(w, Insert) && Rejected(w.hand.value.burst, w.hand.value.txTime)
    requires Run(Next(w, Insert), between, w1) && (forall e :: e in between ==> !e.Send?)
    requires w1.tx.Valid() && Enabled(w1, Send(t)) && Run(Next(w1, Send(t)), after, w2)
    requires w2.tx.Valid() && Enabled(w2, Send(t')) && Empty(w2, t')
    ensures var b := w.hand.value.burst;
      var m1 := Recall(Remember(m, w, Insert), Next(w, Insert), between, w1);
      var h1 := Remember(m1, w1, Send(t)).past;
      var m2 := Recall(Remember(m1, w1, Send(t)), Next(w1, Send(t)), after, w2);
      var h2 := Remember(m2, w2, Send(t')).past;
      var modulus := w2.tx.slots[Tn(t')].modulus;
      && |m1.past| <= k < |h1| <= |h2| && h2[k] == Setting(b, w1.tx.slots[Tn(b.time)].modulus)
      && (Reaches(h2[k], t', modulus) && (forall j :: k < j < |h2| ==> !Reaches(h2[j], t', modulus))
          ==> Got(w2.tx, t', None).burst == Some(b))
  {
    hide Ordered, Next, Got, Empty, Reaches, SpentBy;
    var b, m0 := w.hand.value.burst, Remember(m, w, Insert);
    assert b in m0.waiting;
    StepRemembers(w, m, Insert);
    StillWaiting(Next(w, Insert), m0, between, w1, b);
    RunRemembers(Next(w, Insert), m0, between, w1);
    var m1 := Recall(m0, Next(w, Insert), between, w1);
    StepRemembers(w1, m1, Send(t));
    k := WaitingIsSet(w1, m1, t, b);
    var m1' := Remember(m1, w1, Send(t));
    RunRemembers(Next(w1, Send(t)), m1', after, w2);
    var m2 := Recall(m1', Next(w1, Send(t)), after, w2);
    EmptySends(w2, m2, t');
    LastReachingIs(Remember(m2, w2, Send(t')).past, t', w2.tx.slots[Tn(t')].modulus, k);
  }

  lemma WaitingIsSet(w: World, m: Memory, t: Slots, b: Burst) returns (k: nat)
    requires w.tx.Valid() && Enabled(w, Send(t)) && b in m.waiting
    ensures var h := Remember(m, w, Send(t)).past;
      |m.past| <= k < |h| && h[k] == Setting(b, w.tx.slots[Tn(b.time)].modulus)
  {
    hide SpentBy, Enabled;
    var i :| 0 <= i < |m.waiting| && m.waiting[i] == b;
    k := |m.past| + i;
    assert (m.waiting + SpentBy(w, t))[i] == b;
  }

  lemma {:induction false} StillWaiting(w: World, m: Memory, es: seq<Event>, w': World, b: Burst)
    requires w.tx.Valid() && Run(w, es, w') && (forall e :: e in es ==> !e.Send?) && b in m.waiting
    ensures b in Recall(m, w, es, w').waiting
    decreases |es|
  {
    hide Got, Added;
    if es != [] {
      assert es[0] in es;
      StillWaiting(Next(w, es[0]), Remember(m, w, es[0]), es[1..], w', b);
    }
  }

  /** Of the queued bursts one getBurst finds out of date the earliest is set last. */
  lemma OlderDescend(w: World, t: Slots)
    requires Ordered(w)
    ensures var older := Older(w.tx.queue, t);
      forall i, j :: 0 <= i < j < |older| ==> After(older[i].time, older[j].time)
  {
    WindowMeansDescending(w.tx.queue, w.low, w.pub - w.low + WINDOW);
    hide InWindow, After, ExactHit;
  }

  // ---- Multiframes ----

  /** The multiframe of a timeslot by its channels: 51 frames for the control channels, 102 for one
      with half rate control, 26 for all others. */
  ghost predicate Multiframes(slots: seq<Slot>) {
    && |slots| == 8
    && forall n :: 0 <= n < 8 ==>
         && (slots[n].modulus == 51 <==> slots[n].chan in {ChanIV, ChanV, ChanVI})
         && (slots[n].modulus == 102 <==> slots[n].chan == ChanVII)
         && slots[n].modulus in {26, 51, 102}
  }

  /** A carrier that begins with the right multiframes has them after every run. */
  lemma {:induction false} MultiframesStay(w: World, es: seq<Event>, w': World)
    requires w.tx.Valid() && Run(w, es, w') && Multiframes(w.tx.slots)
    ensures Multiframes(w'.tx.slots)
    decreases |es|
  {
    if es != [] {
      SlotsOnlySet(w, es[0]);
      hide Next;
      MultiframesStay(Next(w, es[0]), es[1..], w');
    }
  }

  lemma SlotsOnlySet(w: World, e: Event)
    requires w.tx.Valid() && Enabled(w, e)
    ensures Next(w, e).tx.Valid() && (Multiframes(w.tx.slots) ==> Multiframes(Next(w, e).tx.slots))
  {
    hide Multiframes;
    if e.SetSlot? {
      SlotSet(w.tx.slots, e.tn, e.chan);
    } else {
      OthersSetNone(w, e);
    }
  }

  lemma OthersSetNone(w: World, e: Event)
    requires w.tx.Valid() && Enabled(w, e) && !e.SetSlot?
    ensures Next(w, e).tx.Valid() && Next(w, e).tx.slots == w.tx.slots
  {
    hide Refilled, OutcomeOf, Passed, ShouldBeSync, CellIndex;
  }

  /** A timeslot set to a channel type gets its multiframe, and no other changes. */
  lemma SlotSet(slots: seq<Slot>, tn: nat, chan: Chan)
    requires ValidSlots(slots)
    ensures tn < 8 && Multiframes(slots) ==> Multiframes(slots[tn := Slot(chan, ChanModulus(chan))])
  {
    if tn < 8 && Multiframes(slots) {
      var s := Slot(chan, ChanModulus(chan));
      assert s.modulus == 51 <==> s.chan in {ChanIV, ChanV, ChanVI};
      assert s.modulus == 102 <==> s.chan == ChanVII;
    }
  }
}
