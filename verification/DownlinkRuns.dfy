/** Runs of the downlink scheduler: the receiving thread, the send thread and the clock
    interleaved. addBurst reads the TX time before it takes the TX mutex, so its two halves are
    separate steps and the time it uses can be stale. */
module DownlinkRuns {
  import opened GsmTime
  import opened Downlink
  import opened Ownership
  import opened QueueOrder

  datatype Pending = Pending(burst: Burst, txTime: Slots)

  /** The carrier with what its threads hold.
      pub       the TX time the send thread last published
      low       no queued or pending burst was accepted against an earlier TX time
      hand      the burst of an addBurst that has read the TX time but not run yet
      shaped    the burst the shaper made for the next getBurst, before it takes the TX mutex
      given     every burst ever made, by parsing or by the shaper
      sender    bursts the send thread owns
      reused    bursts whose object was parsed into again
      enqueued, fillersIn, exact   how often each of these happened so far */
  datatype World = World(tx: TxState, pub: Slots, low: Slots, hand: Option<Pending>,
                         shaped: Option<Burst>, given: multiset<Burst>, sender: multiset<Burst>,
                         reused: multiset<Burst>,
                         enqueued: nat, fillersIn: nat, exact: nat)

  datatype Event = Receive(b: Burst)                        // parse, then read the TX time
                 | Insert                                   // the rest of addBurst
                 | Shape(b: Burst, recycled: bool)          // getShaped, which can parse into a stored object
                 | Send(t: Slots)                           // the rest of getBurst for slot t
                 | Release(b: Burst)                        // sendBurst stores a burst it owns
                 | Publish(p: Slots)                        // the end of a pass of the send loop
                 | SetSlot(tn: nat, chan: Chan)

  /** The steps the environment may take. The bound on Send and Publish keeps TX jumps below
      half a hyperframe less the acceptance window. */
  ghost predicate Enabled(w: World, e: Event) {
    match e
    case Receive(b) => w.hand.None? && b !in w.given
    case Insert => w.hand.Some?
    case Shape(b, _) => w.shaped.None? && b !in w.given
    case Send(t) => w.pub <= t && t - w.low + WINDOW < HALF
    case Release(b) => b in w.sender
    case Publish(p) => w.pub <= p && p - w.low + WINDOW < HALF
    case SetSlot(_, _) => true
  }

  /** A burst is parsed into an object of the store, if it has one. */
  ghost function Parsed(w: World): World {
    var items := w.tx.fillers.store.items;
    if items == [] then w
    else w.(tx := w.tx.(fillers := w.tx.fillers.(store := w.tx.fillers.store.(items := items[1..]))),
            reused := w.reused + multiset{items[0]})
  }

  ghost function Next(w: World, e: Event): World
    requires w.tx.Valid() && Enabled(w, e)
  {
    match e
    case Receive(b) => Parsed(w).(hand := Some(Pending(b, w.pub)), given := w.given + multiset{b})
    case Insert =>
      var p := w.hand.value;
      var o := OutcomeOf(w.tx.queue, p.burst, p.txTime);
      w.(tx := Added(w.tx, p.burst, p.txTime), hand := None,
         enqueued := w.enqueued + (if o == Enqueued then 1 else 0),
         fillersIn := w.fillersIn + (if o == IsFiller then 1 else 0))
    case Shape(b, recycled) =>
      (if recycled then Parsed(w) else w).(shaped := Some(b), given := w.given + multiset{b})
    case Send(t) =>
      var r := Got(w.tx, t, w.shaped);
      w.(tx := r.state, shaped := None,
         low := if w.hand.Some? then w.hand.value.txTime else w.pub,
         sender := if r.owner then w.sender + Made(r.burst) else w.sender,
         exact := w.exact + (if ExactHit(w.tx.queue, t).Some? then 1 else 0))
    case Release(b) =>
      w.(tx := w.tx.(fillers := w.tx.fillers.(store := w.tx.fillers.store.Put(b))),
         sender := w.sender - multiset{b})
    case Publish(p) => w.(pub := p)
    case SetSlot(tn, chan) =>
      if tn > 7 || w.tx.slots[tn].chan == chan then w
      else w.(tx := w.tx.(slots := w.tx.slots[tn := Slot(chan, ChanModulus(chan))]))
  }

  ghost function Made(b: Option<Burst>): multiset<Burst> {
    if b.Some? then multiset{b.value} else multiset{}
  }

  ghost predicate Run(w: World, es: seq<Event>, w': World)
    requires w.tx.Valid()
    decreases |es|
  {
    if es == [] then w' == w
    else Enabled(w, es[0]) && Run(Next(w, es[0]), es[1..], w')
  }

  /** A carrier as its constructor leaves it, with the send thread at TX time t0. */
  ghost predicate Initial(w: World) {
    && w.tx.Valid() && w.tx.queue == w.tx.expired == []
    && w.tx.fillers.store == Store([], multiset{})
    && (forall k :: 0 <= k < |w.tx.fillers.cells| ==> w.tx.fillers.cells[k] == Default)
    && w.tx.stats == Stats(0, 0, seq(8, _ => 0), 0, 0, 0, 0, 0)
    && w.low == w.pub && w.hand == None && w.shaped == None
    && w.given == w.sender == w.reused == multiset{}
    && w.enqueued == w.fillersIn == w.exact == 0
  }

  // ---- Safety of the order ----

  ghost predicate Ordered(w: World) {
    && w.tx.Valid()
    && w.low <= w.pub && w.pub - w.low + WINDOW < HALF
    && InWindow(w.tx.queue, w.low, w.pub - w.low + WINDOW)
    && (w.hand.Some? ==> w.low <= w.hand.value.txTime <= w.pub)
  }

  lemma SendKeepsOrder(w: World, t: Slots)
    requires Ordered(w) && Enabled(w, Send(t))
    ensures Ordered(Next(w, Send(t)))
  {
    hide Got, Later, InWindow;
    GotFillers(w.tx, t, w.shaped);
    var low' := if w.hand.Some? then w.hand.value.txTime else w.pub;
    RemainingInWindow(w.tx.queue, w.low, low', w.pub - w.low + WINDOW, t);
  }

  /** What stays queued after slot t was sent is after t, so the window can be measured from any
      reference up to t. */
  lemma RemainingInWindow(q: seq<Burst>, low: Slots, low': Slots, width: nat, t: Slots)
    requires InWindow(q, low, width)
    requires low <= low' <= t < low + HALF && low' - low <= width
    ensures InWindow(q[..Later(q, t)], low', width - (low' - low))
  {
    Ahead(t, low);
    LaterInWindow(q, low, width, t);
    RebaseWindow(q[..Later(q, t)], low, low', width);
  }

  lemma InsertKeepsOrder(w: World)
    requires Ordered(w) && Enabled(w, Insert)
    ensures Ordered(Next(w, Insert))
  {
    var b, c := w.hand.value.burst, w.hand.value.txTime;
    var q, width := w.tx.queue, w.pub - w.low + WINDOW;
    AcceptedDistance(b.time, c);
    if OutcomeOf(q, b, c) == Enqueued {
      AcceptedInWindow(b.time, c, w.low, width);
      InsertKeepsWindow(q, w.low, width, b);
      assert Added(w.tx, b, c).queue == Spliced(q, Passed(q, b.time), b);
    }
  }

  lemma WiderWindow(q: seq<Burst>, low: Slots, width: nat, width': nat)
    requires InWindow(q, low, width) && width <= width'
    ensures InWindow(q, low, width')
  {
  }

  lemma ParsedKeepsOrder(w: World)
    requires Ordered(w)
    ensures var p := Parsed(w);
      && p.tx.Valid() && p.tx.queue == w.tx.queue && p.low == w.low && p.pub == w.pub
      && p.hand == w.hand && p.shaped == w.shaped
  {
    hide InWindow;
  }

  lemma StepKeepsOrder(w: World, e: Event)
    requires Ordered(w) && Enabled(w, e)
    ensures Ordered(Next(w, e))
  {
    hide InWindow, Got, Added, Parsed;
    match e
    case Send(t) => SendKeepsOrder(w, t);
    case Insert => InsertKeepsOrder(w);
    case Receive(_) => ParsedKeepsOrder(w);
    case Shape(_, _) => ParsedKeepsOrder(w);
    case Publish(p) => WiderWindow(w.tx.queue, w.low, w.pub - w.low + WINDOW, p - w.low + WINDOW);
    case _ =>
  }

  /** In every interleaving the TX queue is strictly descending under the cyclic comparison,
      has one burst per slot of the hyperframe, and reaches at most WINDOW slots past the TX
      time. */
  lemma {:induction false} QueueStaysOrdered(w: World, es: seq<Event>, w': World)
    requires Ordered(w) && Run(w, es, w')
    ensures Ordered(w')
    ensures forall i, j :: 0 <= i < j < |w'.tx.queue| ==> After(w'.tx.queue[i].time, w'.tx.queue[j].time)
    ensures OnePerSlot(w'.tx.queue)
    ensures forall b :: b in w'.tx.queue ==> Diff(b.time, w'.pub) <= WINDOW
    decreases |es|
  {
    if es == [] {
      WindowMeansDescending(w.tx.queue, w.low, w.pub - w.low + WINDOW);
      forall b | b in w.tx.queue ensures Diff(b.time, w.pub) <= WINDOW {
        Ahead(w.pub, w.low);
        DiffSubtracts(b.time, w.pub, w.low);
      }
    } else {
      StepKeepsOrder(w, es[0]);
      QueueStaysOrdered(Next(w, es[0]), es[1..], w');
    }
  }

  lemma InitialIsOrdered(w: World)
    requires Initial(w)
    ensures Ordered(w)
  {
  }

  // ---- Conservation ----

  /** Every place a burst can be. */
  datatype Places = Places(queue: multiset<Burst>, expired: multiset<Burst>, fillers: multiset<Burst>,
                           sender: multiset<Burst>, reused: multiset<Burst>, hand: multiset<Burst>,
                           shaped: multiset<Burst>)
  {
    ghost function All(): multiset<Burst> {
      queue + expired + fillers + sender + reused + hand + shaped
    }
  }

  ghost function PlacesOf(w: World): Places {
    Places(multiset(w.tx.queue), multiset(w.tx.expired), Bursts(w.tx.fillers), w.sender, w.reused,
           if w.hand.Some? then multiset{w.hand.value.burst} else multiset{}, Made(w.shaped))
  }

  ghost function Ledger(w: World): multiset<Burst> {
    PlacesOf(w).All()
  }

  ghost predicate Accounted(w: World) {
    w.tx.Valid() && w.given == Ledger(w) && AtMostOnce(w.given)
  }

  lemma Splits(q: seq<Burst>, n: nat)
    requires n <= |q|
    ensures multiset(q) == multiset(q[..n]) + multiset(q[n..])
  {
    assert q == q[..n] + q[n..];
  }

  lemma QueueSplits(q: seq<Burst>, t: Slots)
    ensures multiset(q) == multiset(q[..Later(q, t)]) + (Made(ExactHit(q, t)) + multiset(Older(q, t)))
  {
    var n := Later(q, t);
    Splits(q, n);
    if ExactHit(q, t).Some? {
      assert q[n..] == [q[n]] + q[n + 1..];
    }
  }

  /** addBurst puts the burst in exactly one place. */
  lemma AddedConserves(s: TxState, b: Burst, txTime: Slots)
    requires s.Valid()
    ensures multiset(Added(s, b, txTime).queue) + multiset(Added(s, b, txTime).expired)
          + Bursts(Added(s, b, txTime).fillers)
         == multiset(s.queue) + multiset(s.expired) + Bursts(s.fillers) + multiset{b}
  {
    hide Passed, OutcomeOf, CountIn, CellBursts;
    var n := Passed(s.queue, b.time);
    match OutcomeOf(s.queue, b, txTime)
    case Enqueued =>
      Splits(s.queue, n);
      assert multiset(s.queue[..n] + [b] + s.queue[n..]) == multiset(s.queue) + multiset{b};
    case Duplicate => PutConserves(s.fillers.store, b);
    case _ =>
  }

  /** The exact hit goes to the table, to the store, or to the caller. */
  lemma KeptConserves(f: Fillers, slots: seq<Slot>, hit: Option<Burst>, t: Slots, shaped: Option<Burst>)
    requires f.Valid() && ValidSlots(slots)
    requires hit.Some? ==> hit.value !in CellBursts(f.cells)
    ensures CellBursts(Kept(f, slots, hit, t, shaped).cells) <= CellBursts(f.cells) + Made(hit)
    ensures Bursts(f) + Made(hit)
         == Bursts(Kept(f, slots, hit, t, shaped))
          + (if slots[Tn(t)].chan == ChanIGprs && shaped.None? then Made(hit) else multiset{})
  {
    hide CellBursts, CellIndex, SetFiller;
    if hit.Some? {
      SetFillerConserves(f, slots, hit.value);
      PutConserves(f.store, hit.value);
    }
  }

  /** The hit a GPRS slot hands to the caller. */
  ghost function Handed(s: TxState, t: Slots, shaped: Option<Burst>): multiset<Burst>
    requires s.Valid()
  {
    if s.slots[Tn(t)].chan == ChanIGprs && shaped.None? then Made(ExactHit(s.queue, t)) else multiset{}
  }

  lemma RefilledConserves(s: TxState, t: Slots, shaped: Option<Burst>)
    requires s.Valid()
    requires AtMostOnce(CellBursts(s.fillers.cells) + multiset(s.expired) + multiset(s.queue))
    ensures Bursts(s.fillers) + multiset(s.expired) + (Made(ExactHit(s.queue, t)) + multiset(Older(s.queue, t)))
         == Bursts(Refilled(s, t, shaped)) + Handed(s, t, shaped)
  {
    var cells, expired, queue := CellBursts(s.fillers.cells), multiset(s.expired), multiset(s.queue);
    var hit, older := Made(ExactHit(s.queue, t)), multiset(Older(s.queue, t));
    QueueSplits(s.queue, t);
    AtMostOnceSub(cells + expired, cells + expired + queue);
    SetFillersConserves(s.fillers, s.slots, s.expired);
    var f0 := SetFillers(s.fillers, s.slots, s.expired);
    assert cells + expired + hit + older <= cells + expired + queue;
    AtMostOnceSub(CellBursts(f0.cells) + hit + older, cells + expired + queue);
    KeepAndClear(f0, s, t, shaped);
    Chain(Bursts(s.fillers), expired, hit, older, Bursts(f0));
  }

  lemma Chain(f: multiset<Burst>, e: multiset<Burst>, hit: multiset<Burst>, older: multiset<Burst>, f0: multiset<Burst>)
    requires f0 == f + e
    ensures f + e + (hit + older) == f0 + hit + older
  {
  }

  /** After the expired bursts: the hit is kept, the older bursts follow it into the table. */
  lemma KeepAndClear(f0: Fillers, s: TxState, t: Slots, shaped: Option<Burst>)
    requires s.Valid() && f0.Valid()
    requires AtMostOnce(CellBursts(f0.cells) + Made(ExactHit(s.queue, t)) + multiset(Older(s.queue, t)))
    ensures Bursts(f0) + Made(ExactHit(s.queue, t)) + multiset(Older(s.queue, t))
         == Bursts(SetFillers(Kept(f0, s.slots, ExactHit(s.queue, t), t, shaped), s.slots, Older(s.queue, t)))
            + Handed(s, t, shaped)
  {
    hide CellBursts, SetFillers, Older, Later, Kept, ExactHit, Bursts;
    var hit, older := ExactHit(s.queue, t), Older(s.queue, t);
    HitIsNew(CellBursts(f0.cells), hit, multiset(older));
    KeptConserves(f0, s.slots, hit, t, shaped);
    var f1 := Kept(f0, s.slots, hit, t, shaped);
    AtMostOnceSub(CellBursts(f1.cells) + multiset(older), CellBursts(f0.cells) + Made(hit) + multiset(older));
    SetFillersConserves(f1, s.slots, older);
  }

  lemma HitIsNew(cells: multiset<Burst>, hit: Option<Burst>, older: multiset<Burst>)
    requires AtMostOnce(cells + Made(hit) + older)
    ensures hit.Some? ==> hit.value !in cells
  {
    if hit.Some? {
      assert (cells + Made(hit) + older)[hit.value] <= 1;
    }
  }

  lemma SenderGains(s: TxState, t: Slots, shaped: Option<Burst>, sender: multiset<Burst>)
    requires s.Valid()
    ensures (if Got(s, t, shaped).owner then sender + Made(Got(s, t, shaped).burst) else sender)
         == sender + Handed(s, t, shaped) + Made(shaped)
  {
  }

  lemma GotFillers(s: TxState, t: Slots, shaped: Option<Burst>)
    requires s.Valid()
    ensures var s' := Got(s, t, shaped).state;
            s'.queue == s.queue[..Later(s.queue, t)] && s'.expired == [] && s'.fillers == Refilled(s, t, shaped)
  {
  }

  /** getBurst takes what is due out of the queue, empties the expired list and the shaper's hand,
      and the sender gains what is handed over. */
  lemma SendBalances(p: Places, p': Places, due: multiset<Burst>, handed: multiset<Burst>)
    requires p.queue == p'.queue + due && p.fillers + p.expired + due == p'.fillers + handed
    requires p' == p.(queue := p'.queue, expired := multiset{}, fillers := p'.fillers,
                      sender := p.sender + handed + p.shaped, shaped := multiset{})
    ensures p'.All() == p.All()
  {
    forall b ensures p'.All()[b] == p.All()[b] {
      assert p.queue[b] == (p'.queue + due)[b];
      assert (p.fillers + p.expired + due)[b] == (p'.fillers + handed)[b];
    }
  }

  lemma SendLedger(w: World, t: Slots)
    requires w.tx.Valid() && Enabled(w, Send(t))
    requires AtMostOnce(CellBursts(w.tx.fillers.cells) + multiset(w.tx.expired) + multiset(w.tx.queue))
    ensures Ledger(Next(w, Send(t))) == Ledger(w)
  {
    hide Got, Refilled, Bursts, Handed, ExactHit, Older, Places.All;
    var s, w' := w.tx, Next(w, Send(t));
    var due := Made(ExactHit(s.queue, t)) + multiset(Older(s.queue, t));
    RefilledConserves(s, t, w.shaped);
    QueueSplits(s.queue, t);
    SenderGains(s, t, w.shaped, w.sender);
    GotFillers(s, t, w.shaped);
    SendBalances(PlacesOf(w), PlacesOf(w'), due, Handed(s, t, w.shaped));
  }

  lemma ParsedLedger(w: World)
    ensures Ledger(Parsed(w)) == Ledger(w)
  {
    hide CellBursts;
    var items, p, p' := w.tx.fillers.store.items, PlacesOf(w), PlacesOf(Parsed(w));
    if items != [] {
      assert items == [items[0]] + items[1..];
      assert p.fillers == p'.fillers + multiset{items[0]};
      assert p' == p.(fillers := p'.fillers, reused := p.reused + multiset{items[0]});
      hide Bursts, PlacesOf, Parsed;
      ItemMoves(p, p', multiset{items[0]});
    }
  }

  lemma ItemMoves(p: Places, p': Places, item: multiset<Burst>)
    requires p.fillers == p'.fillers + item && p' == p.(fillers := p'.fillers, reused := p.reused + item)
    ensures p'.All() == p.All()
  {
    forall b ensures p'.All()[b] == p.All()[b] {
      assert p.fillers[b] == (p'.fillers + item)[b];
    }
  }

  lemma ReceiveLedger(w: World, b: Burst)
    requires w.tx.Valid() && Enabled(w, Receive(b))
    ensures Ledger(Next(w, Receive(b))) == Ledger(w) + multiset{b}
  {
    ParsedLedger(w);
    hide Bursts;
    assert PlacesOf(Next(w, Receive(b))) == PlacesOf(Parsed(w)).(hand := multiset{b});
    assert PlacesOf(Parsed(w)).hand == multiset{};
  }

  lemma ShapeLedger(w: World, b: Burst, recycled: bool)
    requires w.tx.Valid() && Enabled(w, Shape(b, recycled))
    ensures Ledger(Next(w, Shape(b, recycled))) == Ledger(w) + multiset{b}
  {
    ParsedLedger(w);
    assert Parsed(w).shaped == w.shaped;
    var w0 := if recycled then Parsed(w) else w;
    assert Next(w, Shape(b, recycled)) == w0.(shaped := Some(b), given := w.given + multiset{b});
    hide Next, Parsed, Ledger;
    ShapedLedger(w0, b, w.given + multiset{b});
  }

  lemma ShapedLedger(w: World, b: Burst, given: multiset<Burst>)
    requires w.shaped.None?
    ensures Ledger(w.(shaped := Some(b), given := given)) == Ledger(w) + multiset{b}
  {
    hide Bursts;
    assert PlacesOf(w.(shaped := Some(b), given := given)) == PlacesOf(w).(shaped := multiset{b});
  }

  lemma InsertLedger(w: World)
    requires w.tx.Valid() && Enabled(w, Insert)
    ensures Ledger(Next(w, Insert)) == Ledger(w)
  {
    AddedConserves(w.tx, w.hand.value.burst, w.hand.value.txTime);
  }

  lemma ReleaseLedger(w: World, b: Burst)
    requires w.tx.Valid() && Enabled(w, Release(b))
    ensures Ledger(Next(w, Release(b))) == Ledger(w)
  {
    hide CellBursts, Places.All;
    StoredAgain(w.tx.fillers, b);
    hide Bursts;
    var p, p' := PlacesOf(w), PlacesOf(Next(w, Release(b)));
    assert p.sender == p'.sender + multiset{b};
    BackToStore(p, p', multiset{b});
  }

  lemma StoredAgain(f: Fillers, b: Burst)
    ensures Bursts(f.(store := f.store.Put(b))) == Bursts(f) + multiset{b}
  {
    hide CellBursts;
    PutConserves(f.store, b);
  }

  lemma BackToStore(p: Places, p': Places, item: multiset<Burst>)
    requires p' == p.(fillers := p'.fillers, sender := p'.sender)
    requires p.sender == p'.sender + item && p'.fillers == p.fillers + item
    ensures p'.All() == p.All()
  {
    forall b ensures p'.All()[b] == p.All()[b] {
      assert p.sender[b] == (p'.sender + item)[b] && p'.fillers[b] == (p.fillers + item)[b];
    }
  }

  /** The burst an event makes, by parsing or by the shaper. */
  ghost function MadeBy(e: Event): multiset<Burst> {
    match e
    case Receive(b) => multiset{b}
    case Shape(b, _) => multiset{b}
    case _ => multiset{}
  }

  lemma StepGives(w: World, e: Event)
    requires w.tx.Valid() && Enabled(w, e) && AtMostOnce(w.given)
    ensures Next(w, e).tx.Valid() && Next(w, e).given == w.given + MadeBy(e) && AtMostOnce(w.given + MadeBy(e))
  {
    hide Bursts, CellBursts, Refilled, ExactHit, Older, Added, Got;
    NewIsOnce(w.given, MadeBy(e));
  }

  lemma NewIsOnce(m: multiset<Burst>, n: multiset<Burst>)
    requires AtMostOnce(m) && AtMostOnce(n) && m !! n
    ensures AtMostOnce(m + n)
  {
    forall b ensures (m + n)[b] <= 1 {
      assert m[b] <= 1 && n[b] <= 1;
    }
  }

  lemma OtherLedger(w: World, e: Event)
    requires w.tx.Valid() && Enabled(w, e) && (e.Publish? || e.SetSlot?)
    ensures Ledger(Next(w, e)) == Ledger(w)
  {
  }

  lemma HeldAtMostOnce(w: World)
    requires Accounted(w)
    ensures AtMostOnce(CellBursts(w.tx.fillers.cells) + multiset(w.tx.expired) + multiset(w.tx.queue))
  {
    hide CellBursts;
    AtMostOnceSub(CellBursts(w.tx.fillers.cells) + multiset(w.tx.expired) + multiset(w.tx.queue), w.given);
  }

  lemma StepLedger(w: World, e: Event)
    requires Accounted(w) && Enabled(w, e)
    ensures Ledger(Next(w, e)) == Ledger(w) + MadeBy(e)
  {
    hide Next, Ledger, AtMostOnce, CellBursts;
    match e
    case Receive(b) => ReceiveLedger(w, b);
    case Shape(b, recycled) => ShapeLedger(w, b, recycled);
    case Insert => InsertLedger(w);
    case Send(t) =>
      HeldAtMostOnce(w);
      SendLedger(w, t);
    case Release(b) => ReleaseLedger(w, b);
    case _ => OtherLedger(w, e);
  }

  lemma StepConserves(w: World, e: Event)
    requires Accounted(w) && Enabled(w, e)
    ensures Accounted(Next(w, e))
  {
    hide Next, Ledger;
    StepGives(w, e);
    StepLedger(w, e);
  }

  /** Over any run every burst ever made is in exactly one place: queue, expired list, filler
      table, store (idle or destroyed), the send thread's hands, a burst being added or just
      shaped, or an object that was parsed into again. */
  lemma {:induction false} BurstsAreConserved(w: World, es: seq<Event>, w': World)
    requires Accounted(w) && Run(w, es, w')
    ensures Accounted(w')
    ensures forall b :: b in w'.given ==> Ledger(w')[b] == 1
    decreases |es|
  {
    if es != [] {
      StepConserves(w, es[0]);
      BurstsAreConserved(Next(w, es[0]), es[1..], w');
    }
  }

  lemma InitialIsAccounted(w: World)
    requires Initial(w)
    ensures Accounted(w)
  {
    DefaultCellsHoldNothing(w.tx.fillers.cells);
  }

  // ---- Counters ----

  function Sum(s: seq<nat>): nat {
    if s == [] then 0 else Sum(s[..|s| - 1]) + s[|s| - 1]
  }

  lemma {:induction false} SumIncrement(s: seq<nat>, i: nat)
    requires i < |s|
    ensures Sum(s[i := s[i] + 1]) == Sum(s) + 1
  {
    var n, s' := |s| - 1, s[i := s[i] + 1];
    if i == n {
      assert s'[..n] == s[..n];
    } else {
      assert s'[..n] == s[..n][i := s[i] + 1];
      SumIncrement(s[..n], i);
    }
  }

  /** Every burst received is counted once by what became of it, and every burst enqueued is
      still queued, was sent in its slot, or expired at send time. */
  ghost predicate Counted(w: World) {
    var st := w.tx.stats;
    && w.tx.Valid()
    && st.dwIn == w.enqueued + w.fillersIn + st.expiredOnRecv + st.future + st.duplicate
    && st.dwIn == Sum(st.dwInSlot)
    && w.enqueued == |w.tx.queue| + w.exact + st.expiredOnSend
  }

  /** addBurst counts the burst once for its slot and once for what becomes of it. */
  lemma AddedCounts(s: TxState, b: Burst, txTime: Slots)
    requires s.Valid()
    ensures var s', o := Added(s, b, txTime), OutcomeOf(s.queue, b, txTime);
      && s'.stats.dwIn == s.stats.dwIn + 1 && Sum(s'.stats.dwInSlot) == Sum(s.stats.dwInSlot) + 1
      && s'.stats.expiredOnRecv == s.stats.expiredOnRecv + (if o == Expired then 1 else 0)
      && s'.stats.future == s.stats.future + (if o == Future then 1 else 0)
      && s'.stats.duplicate == s.stats.duplicate + (if o == Duplicate then 1 else 0)
      && s'.stats.expiredOnSend == s.stats.expiredOnSend
      && |s'.queue| == |s.queue| + (if o == Enqueued then 1 else 0)
  {
    hide Sum;
    SumIncrement(s.stats.dwInSlot, Tn(b.time));
  }

  lemma InsertKeepsCounts(w: World)
    requires Counted(w) && Enabled(w, Insert)
    ensures Counted(Next(w, Insert))
  {
    var p := w.hand.value;
    hide Sum, OutcomeOf, Passed, Bursts;
    AddedCounts(w.tx, p.burst, p.txTime);
  }

  lemma SendKeepsCounts(w: World, t: Slots)
    requires Counted(w) && Enabled(w, Send(t))
    ensures Counted(Next(w, Send(t)))
  {
    hide Refilled;
  }

  lemma ParsedKeepsCounts(w: World)
    requires Counted(w)
    ensures Counted(Parsed(w))
  {
    hide Sum;
  }

  lemma StepKeepsCounts(w: World, e: Event)
    requires Counted(w) && Enabled(w, e)
    ensures Counted(Next(w, e))
  {
    hide Added, Got, Sum, Parsed;
    match e
    case Insert => InsertKeepsCounts(w);
    case Send(t) => SendKeepsCounts(w, t);
    case Receive(_) => ParsedKeepsCounts(w);
    case Shape(_, _) => ParsedKeepsCounts(w);
    case _ =>
  }

  lemma {:induction false} CountsAddUp(w: World, es: seq<Event>, w': World)
    requires Counted(w) && Run(w, es, w')
    ensures Counted(w')
    decreases |es|
  {
    if es != [] {
      StepKeepsCounts(w, es[0]);
      CountsAddUp(Next(w, es[0]), es[1..], w');
    }
  }

  lemma InitialIsCounted(w: World)
    requires Initial(w)
    ensures Counted(w)
  {
    SumOfZeros(w.tx.stats.dwInSlot);
  }

  lemma {:induction false} SumOfZeros(z: seq<nat>)
    requires forall k :: 0 <= k < |z| ==> z[k] == 0
    ensures Sum(z) == 0
  {
    if z != [] {
      SumOfZeros(z[..|z| - 1]);
    }
  }
}
