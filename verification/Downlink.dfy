/** The state of one carrier's downlink burst scheduler (ARFCN in transceiver/transceiver.cpp)
    as a value, and what its two operations do to that value. The class in Arfcn.dfy
    implements these functions step by step; DownlinkRuns.dfy proves what they keep. */
module Downlink {
  import opened GsmTime

  datatype Option<+T> = None | Some(value: T)

  /** A burst object. `id` is its identity: two bursts with the same fields but different ids
      are different objects. Parsing into a recycled object starts a new burst. */
  datatype Burst = Burst(id: nat, time: Slots, filler: bool, kind: nat)

  /** A filler table cell: the shared default filler, or a burst the table owns. */
  datatype Cell = Default | Held(burst: Burst)

  datatype Chan = ChanFill | ChanI | ChanII | ChanIII | ChanIV | ChanV | ChanVI | ChanVII
                | ChanNone | ChanLoopback | ChanIGprs

  datatype Slot = Slot(chan: Chan, modulus: nat)

  function ChanModulus(c: Chan): nat {
    match c
    case ChanIV | ChanV | ChanVI => 51
    case ChanVII => 102
    case _ => 26
  }

  const STORE_MAX := 200
  const WINDOW := 204 * 8

  /** The recycling store: a bounded list of idle objects. Objects that do not fit are
      destroyed; `deleted` records which. */
  datatype Store = Store(items: seq<Burst>, deleted: multiset<Burst>) {
    function Put(b: Burst): Store {
      if |items| < STORE_MAX then Store([b] + items, deleted)
      else Store(items, deleted + multiset{b})
    }

    function Bursts(): multiset<Burst> {
      multiset(items) + deleted
    }
  }

  /** The filler table together with the store its evicted bursts go to. */
  datatype Fillers = Fillers(cells: seq<Cell>, store: Store) {
    ghost predicate Valid() {
      |cells| % 8 == 0 && |cells| >= 102 * 8
    }
  }

  datatype Stats = Stats(lastIn: Slots, dwIn: nat, dwInSlot: seq<nat>, missedSync: nat,
                         expiredOnSend: nat, expiredOnRecv: nat, future: nat, duplicate: nat)

  /** The transmit side of a carrier. `dummy` is the shared default filler, if it has one. */
  datatype TxState = TxState(index: nat, dummy: Option<Burst>, queue: seq<Burst>, expired: seq<Burst>,
                             fillers: Fillers, slots: seq<Slot>, stats: Stats)
  {
    ghost predicate Valid() {
      && fillers.Valid()
      && ValidSlots(slots)
      && |stats.dwInSlot| == 8
    }
  }

  ghost predicate ValidSlots(slots: seq<Slot>) {
    |slots| == 8 && forall k :: 0 <= k < 8 ==> slots[k].modulus in {26, 51, 102}
  }

  /** TxFillerTable::fillerHolder, the table flattened row by row. */
  function CellIndex(slots: seq<Slot>, t: Slots): (i: nat)
    requires ValidSlots(slots)
    ensures i < 102 * 8
  {
    Fn(t) % slots[Tn(t)].modulus * 8 + Tn(t)
  }

  /** TxFillerTable::set: an evicted burst goes to the store. */
  function SetFiller(f: Fillers, slots: seq<Slot>, b: Burst): (f': Fillers)
    requires f.Valid() && ValidSlots(slots)
    ensures f'.Valid()
  {
    var i := CellIndex(slots, b.time);
    if f.cells[i] == Held(b) then f
    else Fillers(f.cells[i := Held(b)],
                 if f.cells[i].Held? then f.store.Put(f.cells[i].burst) else f.store)
  }

  function SetFillers(f: Fillers, slots: seq<Slot>, bs: seq<Burst>): (f': Fillers)
    requires f.Valid() && ValidSlots(slots)
    ensures f'.Valid()
    decreases |bs|
  {
    if bs == [] then f else SetFillers(SetFiller(f, slots, bs[0]), slots, bs[1..])
  }

  datatype Outcome = IsFiller | Expired | Future | Duplicate | Enqueued

  /** How many queued bursts the insertion loop passes: it stops at the first burst that is
      not after the new one. */
  function Passed(q: seq<Burst>, t: Slots): (n: nat)
    ensures n <= |q|
    ensures forall k :: 0 <= k < n ==> !After(t, q[k].time) && !SameSlot(t, q[k].time)
    ensures n < |q| ==> After(t, q[n].time) || SameSlot(t, q[n].time)
  {
    if q == [] || After(t, q[0].time) || SameSlot(t, q[0].time) then 0
    else 1 + Passed(q[1..], t)
  }

  function OutcomeOf(q: seq<Burst>, b: Burst, txTime: Slots): Outcome {
    if b.filler then IsFiller
    else if After(txTime, b.time) then Expired
    else if After(b.time, txTime + WINDOW) then Future
    else
      var n := Passed(q, b.time);
      if n < |q| && !After(b.time, q[n].time) then Duplicate else Enqueued
  }

  function CountIn(st: Stats, b: Burst, o: Outcome): Stats
    requires |st.dwInSlot| == 8
  {
    st.(lastIn := b.time, dwIn := st.dwIn + 1,
        dwInSlot := st.dwInSlot[Tn(b.time) := st.dwInSlot[Tn(b.time)] + 1],
        expiredOnRecv := st.expiredOnRecv + (if o == Expired then 1 else 0),
        future := st.future + (if o == Future then 1 else 0),
        duplicate := st.duplicate + (if o == Duplicate then 1 else 0))
  }

  /** ARFCN::addBurst with the TX time it read. */
  function Added(s: TxState, b: Burst, txTime: Slots): (s': TxState)
    requires s.Valid()
    ensures s'.Valid()
  {
    var o := OutcomeOf(s.queue, b, txTime);
    var n := Passed(s.queue, b.time);
    s.(stats := CountIn(s.stats, b, o),
       expired := if o in {IsFiller, Expired, Future} then [b] + s.expired else s.expired,
       queue := if o == Enqueued then s.queue[..n] + [b] + s.queue[n..] else s.queue,
       fillers := if o == Duplicate then s.fillers.(store := s.fillers.store.Put(b)) else s.fillers)
  }

  /** How many queued bursts are after the slot being sent, counted from the front. */
  function Later(q: seq<Burst>, t: Slots): (n: nat)
    ensures n <= |q|
    ensures forall k :: 0 <= k < n ==> After(q[k].time, t)
    ensures n < |q| ==> AtOrBefore(q[n].time, t)
  {
    if q == [] || AtOrBefore(q[0].time, t) then 0 else 1 + Later(q[1..], t)
  }

  predicate ShouldBeSync(t: Slots) {
    Tn(t) == 0 && Fn(t) % 51 in {1, 11, 21, 31, 41}
  }

  datatype Sent = Sent(burst: Option<Burst>, owner: bool, state: TxState)

  /** The burst found for exactly the slot being sent, if the queue holds one. */
  function ExactHit(q: seq<Burst>, t: Slots): Option<Burst> {
    var n := Later(q, t);
    if n < |q| && SameSlot(q[n].time, t) then Some(q[n]) else None
  }

  /** What getBurst does with the exact hit besides returning it: it becomes filler data,
      except on a GPRS slot, where it is handed over or recycled. */
  function Kept(f: Fillers, slots: seq<Slot>, hit: Option<Burst>, t: Slots, shaped: Option<Burst>): (f': Fillers)
    requires f.Valid() && ValidSlots(slots)
    ensures f'.Valid()
  {
    if hit.None? then f
    else if slots[Tn(t)].chan != ChanIGprs then SetFiller(f, slots, hit.value)
    else if shaped.None? then f
    else f.(store := f.store.Put(hit.value))
  }

  /** The queued bursts that are before the slot being sent. */
  function Older(q: seq<Burst>, t: Slots): seq<Burst> {
    q[if ExactHit(q, t).Some? then Later(q, t) + 1 else Later(q, t)..]
  }

  /** The filler table after expired bursts, the exact hit and older bursts went into it, in
      that order. */
  function Refilled(s: TxState, t: Slots, shaped: Option<Burst>): (f: Fillers)
    requires s.Valid()
    ensures f.Valid()
  {
    var f0 := SetFillers(s.fillers, s.slots, s.expired);
    var f1 := Kept(f0, s.slots, ExactHit(s.queue, t), t, shaped);
    SetFillers(f1, s.slots, Older(s.queue, t))
  }

  /** The state once the lists are cleared out for the slot being sent. */
  function Cleared(s: TxState, t: Slots, shaped: Option<Burst>): (s': TxState)
    requires s.Valid()
    ensures s'.Valid()
  {
    s.(queue := s.queue[..Later(s.queue, t)], expired := [], fillers := Refilled(s, t, shaped),
       stats := s.stats.(expiredOnSend := s.stats.expiredOnSend + |Older(s.queue, t)|))
  }

  /** ARFCN::getBurst. `shaped` is the burst the traffic shaper supplied, if any. */
  function Got(s: TxState, t: Slots, shaped: Option<Burst>): (r: Sent)
    requires s.Valid()
    ensures r.state.Valid()
  {
    var hit := ExactHit(s.queue, t);
    var s' := Cleared(s, t, shaped);
    var cell := s'.fillers.cells[CellIndex(s.slots, t)];
    var owner := shaped.Some? || (hit.Some? && s.slots[Tn(t)].chan == ChanIGprs);
    if shaped.Some? then Sent(shaped, owner, s')
    else if hit.Some? then Sent(hit, owner, s')
    else if s.index == 0 && ShouldBeSync(t) then
      Sent(None, false, s'.(stats := s'.stats.(missedSync := s'.stats.missedSync + 1)))
    else Sent(if cell.Default? then s.dummy else Some(cell.burst), false, s')
  }
}
