/** The transmit queue inside its window: what "descending" means there, and both operations as
    operations on a map from slots of the hyperframe to bursts. */
module QueueOrder {
  import opened GsmTime
  import opened Downlink

  /** Every queued burst lies at most `width` slots after `low`, and the queue runs strictly
      downwards, both measured from `low`. */
  ghost predicate InWindow(q: seq<Burst>, low: Slots, width: nat) {
    && (forall k :: 0 <= k < |q| ==> 0 <= Diff(q[k].time, low) <= width)
    && (forall i, j :: 0 <= i < j < |q| ==> Diff(q[i].time, low) > Diff(q[j].time, low))
  }

  /** In a window shorter than half a hyperframe the queue is strictly descending under the
      cyclic comparison itself, with one burst per slot of the hyperframe. */
  lemma WindowMeansDescending(q: seq<Burst>, low: Slots, width: nat)
    requires InWindow(q, low, width) && width < HALF
    ensures forall i, j :: 0 <= i < j < |q| ==> After(q[i].time, q[j].time)
    ensures forall i, j :: 0 <= i < j < |q| ==> Before(q[j].time, q[i].time)
    ensures forall i, j :: 0 <= i < j < |q| ==> Timeslot(q[i].time) != Timeslot(q[j].time)
  {
    forall i, j | 0 <= i < j < |q|
      ensures After(q[i].time, q[j].time) && Before(q[j].time, q[i].time)
      ensures Timeslot(q[i].time) != Timeslot(q[j].time)
    {
      DiffSubtracts(q[i].time, q[j].time, low);
      DiffSubtracts(q[j].time, q[i].time, low);
      SameSlotIffCongruent(q[i].time, q[j].time);
    }
  }

  /** Comparing a time of the window with a queued burst compares their distances to `low`. */
  lemma Compare(t: Slots, u: Slots, low: Slots)
    requires 0 <= Diff(t, low) && 0 <= Diff(u, low)
    ensures After(t, u) <==> Diff(t, low) > Diff(u, low)
    ensures SameSlot(t, u) <==> Diff(t, low) == Diff(u, low)
    ensures AtOrBefore(t, u) <==> Diff(t, low) <= Diff(u, low)
  {
    DiffSubtracts(t, u, low);
  }

  /** A slot number counted on from low by less than half a hyperframe. */
  lemma Ahead(t: Slots, low: Slots)
    requires low <= t < low + HALF
    ensures Diff(t, low) == t - low
  {
    DiffInWindow(t, low);
  }

  /** Moving the reference of the window forward shortens all distances alike. */
  lemma Rebase(b: Slots, low: Slots, low': Slots)
    requires low <= low' < low + HALF && Diff(b, low) >= low' - low
    ensures Diff(b, low') == Diff(b, low) - (low' - low)
  {
    Ahead(low', low);
    DiffSubtracts(b, low', low);
  }

  lemma RebaseWindow(q: seq<Burst>, low: Slots, low': Slots, width: nat)
    requires InWindow(q, low, width) && low <= low' < low + HALF && low' - low <= width
    requires forall k :: 0 <= k < |q| ==> Diff(q[k].time, low) >= low' - low
    ensures InWindow(q, low', width - (low' - low))
  {
    forall k | 0 <= k < |q|
      ensures Diff(q[k].time, low') == Diff(q[k].time, low) - (low' - low)
    {
      Rebase(q[k].time, low, low');
    }
  }

  /** The walk of addBurst stops at the first burst not later than the new one; everything
      before it is later. */
  lemma PassedInWindow(q: seq<Burst>, low: Slots, width: nat, t: Slots)
    requires InWindow(q, low, width) && 0 <= Diff(t, low)
    ensures var n := Passed(q, t);
            && (forall k :: 0 <= k < n ==> Diff(q[k].time, low) > Diff(t, low))
            && (forall k :: n <= k < |q| ==> Diff(q[k].time, low) <= Diff(t, low))
            && (forall k :: n < k < |q| ==> Diff(q[k].time, low) < Diff(t, low))
  {
    var n := Passed(q, t);
    forall k | 0 <= k < n ensures Diff(q[k].time, low) > Diff(t, low) {
      Compare(t, q[k].time, low);
    }
    if n < |q| {
      Compare(t, q[n].time, low);
    }
  }

  /** The walk of getBurst stops at the first burst that is due or overdue; so is everything
      after it. */
  lemma LaterInWindow(q: seq<Burst>, low: Slots, width: nat, t: Slots)
    requires InWindow(q, low, width) && 0 <= Diff(t, low)
    ensures var n := Later(q, t);
            && (forall k :: 0 <= k < n ==> Diff(q[k].time, low) > Diff(t, low))
            && (forall k :: n <= k < |q| ==> Diff(q[k].time, low) <= Diff(t, low))
            && (forall k :: n < k < |q| ==> Diff(q[k].time, low) < Diff(t, low))
  {
    var n := Later(q, t);
    forall k | 0 <= k < n ensures Diff(q[k].time, low) > Diff(t, low) {
      Compare(q[k].time, t, low);
    }
    if n < |q| {
      Compare(q[n].time, t, low);
    }
  }

  function Spliced<T>(q: seq<T>, n: nat, b: T): seq<T>
    requires n <= |q|
  {
    q[..n] + [b] + q[n..]
  }

  lemma SplicedAt<T>(q: seq<T>, n: nat, b: T, k: nat)
    requires n <= |q| && k <= |q|
    ensures Spliced(q, n, b)[k] == if k < n then q[k] else if k == n then b else q[k - 1]
  {
  }

  lemma AheadOfLow(q: seq<Burst>, low: Slots, width: nat, k: nat)
    requires InWindow(q, low, width) && k < |q|
    ensures 0 <= Diff(q[k].time, low)
  {
  }

  lemma InsertKeepsWindow(q: seq<Burst>, low: Slots, width: nat, b: Burst)
    requires InWindow(q, low, width) && 0 <= Diff(b.time, low) <= width
    requires var n := Passed(q, b.time); n < |q| ==> After(b.time, q[n].time)
    ensures InWindow(Spliced(q, Passed(q, b.time), b), low, width)
  {
    hide Diff, Passed, After, InWindow;
    var n := Passed(q, b.time);
    PassedInWindow(q, low, width, b.time);
    if n < |q| {
      AheadOfLow(q, low, width, n);
      Compare(b.time, q[n].time, low);
    }
    assert forall k :: n <= k < |q| ==> Diff(q[k].time, low) < Diff(b.time, low);
    SpliceKeepsWindow(q, low, width, n, b);
  }

  lemma SpliceKeepsWindow(q: seq<Burst>, low: Slots, width: nat, n: nat, b: Burst)
    requires InWindow(q, low, width) && 0 <= Diff(b.time, low) <= width && n <= |q|
    requires forall k :: 0 <= k < n ==> Diff(q[k].time, low) > Diff(b.time, low)
    requires forall k :: n <= k < |q| ==> Diff(q[k].time, low) < Diff(b.time, low)
    ensures InWindow(Spliced(q, n, b), low, width)
  {
    var q' := Spliced(q, n, b);
    forall i, j | 0 <= i < j < |q'|
      ensures Diff(q'[i].time, low) > Diff(q'[j].time, low)
    {
      SplicedAt(q, n, b, i);
      SplicedAt(q, n, b, j);
    }
    forall k | 0 <= k < |q'|
      ensures 0 <= Diff(q'[k].time, low) <= width
    {
      SplicedAt(q, n, b, k);
    }
  }

  // ---- The queue as a map ----

  ghost function AsMap(q: seq<Burst>): (m: map<nat, Burst>)
    ensures forall s :: s in m ==> m[s] in q && Timeslot(m[s].time) == s
    ensures forall b :: b in q ==> Timeslot(b.time) in m
  {
    if q == [] then map[] else AsMap(q[1..])[Timeslot(q[0].time) := q[0]]
  }

  ghost predicate OnePerSlot(q: seq<Burst>) {
    forall i, j :: 0 <= i < j < |q| ==> Timeslot(q[i].time) != Timeslot(q[j].time)
  }

  /** With one burst per slot, the map has exactly the queued bursts under their slots. */
  lemma AsMapIs(q: seq<Burst>, b: Burst)
    requires OnePerSlot(q)
    ensures b in q <==> Timeslot(b.time) in AsMap(q) && AsMap(q)[Timeslot(b.time)] == b
  {
    if b in q {
      var c := AsMap(q)[Timeslot(b.time)];
      var i :| 0 <= i < |q| && q[i] == b;
      var j :| 0 <= j < |q| && q[j] == c;
      assert i == j;
    }
  }

  lemma AsMapExtensional(q: seq<Burst>, m: map<nat, Burst>)
    requires OnePerSlot(q)
    requires forall b :: b in q <==> Timeslot(b.time) in m && m[Timeslot(b.time)] == b
    requires forall s :: s in m ==> Timeslot(m[s].time) == s
    ensures AsMap(q) == m
  {
    forall s | s in m ensures s in AsMap(q) && AsMap(q)[s] == m[s] {
      AsMapIs(q, m[s]);
    }
    forall s | s in AsMap(q) ensures s in m {
      assert AsMap(q)[s] in q;
    }
  }

  /** What becomes of a burst in the acceptance window: it is enqueued if its slot is free. */
  lemma EnqueuedIfFree(q: seq<Burst>, b: Burst, low: Slots, width: nat)
    requires InWindow(q, low, width) && width < HALF && 0 <= Diff(b.time, low)
    ensures var n := Passed(q, b.time);
      (n < |q| ==> After(b.time, q[n].time)) <==> Timeslot(b.time) !in AsMap(q)
  {
    hide Diff, InWindow;
    var n := Passed(q, b.time);
    if n < |q| {
      if After(b.time, q[n].time) {
        SlotIsFree(q, low, width, b);
      } else {
        SameSlotIffCongruent(b.time, q[n].time);
        assert q[n] in q;
      }
    } else {
      SlotIsFree(q, low, width, b);
    }
  }

  /** addBurst enqueues a burst exactly if it is no filler, lies in the acceptance window and its
      slot is free. */
  lemma EnqueuedIff(q: seq<Burst>, b: Burst, txTime: Slots, low: Slots, width: nat)
    requires InWindow(q, low, width) && width < HALF
    requires low <= txTime && txTime - low + WINDOW <= width
    ensures OutcomeOf(q, b, txTime) == Enqueued
       <==> !b.filler && 0 <= Diff(b.time, txTime) <= WINDOW && Timeslot(b.time) !in AsMap(q)
  {
    hide Diff, InWindow, Passed, After, AsMap, Timeslot;
    AcceptedDistance(b.time, txTime);
    if 0 <= Diff(b.time, txTime) <= WINDOW {
      AcceptedInWindow(b.time, txTime, low, width);
      EnqueuedIfFree(q, b, low, width);
    }
  }

  /** An enqueued burst becomes an entry of the map. */
  lemma EnqueuedEntry(q: seq<Burst>, b: Burst, low: Slots, width: nat)
    requires InWindow(q, low, width) && width < HALF && 0 <= Diff(b.time, low) <= width
    requires Timeslot(b.time) !in AsMap(q)
    ensures AsMap(Spliced(q, Passed(q, b.time), b)) == AsMap(q)[Timeslot(b.time) := b]
  {
    hide Diff, InWindow, Passed, After, AsMap, Timeslot;
    var n, q' := Passed(q, b.time), Spliced(q, Passed(q, b.time), b);
    EnqueuedIfFree(q, b, low, width);
    InsertKeepsWindow(q, low, width, b);
    WindowMeansDescending(q, low, width);
    WindowMeansDescending(q', low, width);
    EnqueuedMap(q, q', n, b);
  }

  /** addBurst refines an insertion into the map: the burst is enqueued exactly if it is no
      filler, lies in the acceptance window of the TX time and its slot is free; then the map
      gains that entry, and otherwise the queue does not change. */
  lemma AddedRefinesMap(s: TxState, b: Burst, txTime: Slots, low: Slots, width: nat)
    requires s.Valid() && InWindow(s.queue, low, width) && width < HALF
    requires low <= txTime && txTime - low + WINDOW <= width
    ensures OnePerSlot(s.queue)
    ensures OutcomeOf(s.queue, b, txTime) == Enqueued
       <==> !b.filler && 0 <= Diff(b.time, txTime) <= WINDOW && Timeslot(b.time) !in AsMap(s.queue)
    ensures var s' := Added(s, b, txTime);
            AsMap(s'.queue) == if OutcomeOf(s.queue, b, txTime) == Enqueued
                               then AsMap(s.queue)[Timeslot(b.time) := b] else AsMap(s.queue)
  {
    hide Diff, InWindow, Passed, After, AsMap, Timeslot, OutcomeOf, CountIn;
    WindowMeansDescending(s.queue, low, width);
    EnqueuedIff(s.queue, b, txTime, low, width);
    if OutcomeOf(s.queue, b, txTime) == Enqueued {
      AcceptedInWindow(b.time, txTime, low, width);
      EnqueuedEntry(s.queue, b, low, width);
      assert Added(s, b, txTime).queue == Spliced(s.queue, Passed(s.queue, b.time), b);
    }
  }

  /** What the two tests of addBurst let through. */
  lemma AcceptedDistance(b: Slots, txTime: Slots)
    ensures !After(txTime, b) && !After(b, txTime + WINDOW) <==> 0 <= Diff(b, txTime) <= WINDOW
  {
    var k := DiffIsCongruent(b, txTime);
    var d := Diff(b, txTime);
    if d == -HALF {
      BothBeforeIffHalfApart(b, txTime);
      DiffUnique(b, txTime + WINDOW, HALF - WINDOW, k - 1);
    } else {
      BothBeforeIffHalfApart(b, txTime);
      if d - WINDOW >= -HALF {
        DiffUnique(b, txTime + WINDOW, d - WINDOW, k);
      }
    }
  }

  lemma AcceptedInWindow(b: Slots, txTime: Slots, low: Slots, width: nat)
    requires low <= txTime && txTime - low + WINDOW <= width < HALF
    requires 0 <= Diff(b, txTime) <= WINDOW
    ensures Diff(b, low) == Diff(b, txTime) + (txTime - low)
  {
    var k := DiffIsCongruent(b, txTime);
    DiffUnique(b, low, Diff(b, txTime) + (txTime - low), k);
  }

  lemma SlotIsFree(q: seq<Burst>, low: Slots, width: nat, b: Burst)
    requires InWindow(q, low, width) && 0 <= Diff(b.time, low)
    requires var n := Passed(q, b.time); n < |q| ==> After(b.time, q[n].time)
    ensures Timeslot(b.time) !in AsMap(q)
  {
    PassedInWindow(q, low, width, b.time);
    var n := Passed(q, b.time);
    if n < |q| {
      Compare(b.time, q[n].time, low);
    }
    if Timeslot(b.time) in AsMap(q) {
      var c := AsMap(q)[Timeslot(b.time)];
      var i :| 0 <= i < |q| && q[i] == c;
      SameSlotIffCongruent(b.time, c.time);
      Compare(b.time, c.time, low);
      assert false;
    }
  }

  lemma EnqueuedMap(q: seq<Burst>, q': seq<Burst>, n: nat, b: Burst)
    requires n <= |q| && q' == q[..n] + [b] + q[n..]
    requires OnePerSlot(q) && OnePerSlot(q') && Timeslot(b.time) !in AsMap(q)
    ensures AsMap(q') == AsMap(q)[Timeslot(b.time) := b]
  {
    hide AsMap, OnePerSlot, Timeslot;
    var m := AsMap(q)[Timeslot(b.time) := b];
    forall c ensures c in q' <==> Timeslot(c.time) in m && m[Timeslot(c.time)] == c {
      SplicedMembers(q, n, b, c);
      AsMapIs(q, c);
    }
    AsMapExtensional(q', m);
  }

  lemma SplicedMembers(q: seq<Burst>, n: nat, b: Burst, c: Burst)
    requires n <= |q|
    ensures c in q[..n] + [b] + q[n..] <==> c in q || c == b
  {
    assert q == q[..n] + q[n..];
  }

  /** getBurst refines a lookup: it finds the burst the map holds for exactly the slot being
      sent, every older entry leaves the map and every later one stays. */
  lemma GotRefinesMap(s: TxState, t: Slots, shaped: Option<Burst>, low: Slots, width: nat)
    requires s.Valid() && InWindow(s.queue, low, width) && width < HALF
    requires low <= t < low + HALF
    ensures var m := AsMap(s.queue);
            ExactHit(s.queue, t) == if Timeslot(t) in m then Some(m[Timeslot(t)]) else None
    ensures AsMap(Got(s, t, shaped).state.queue)
         == map k | k in AsMap(s.queue) && After(AsMap(s.queue)[k].time, t) :: AsMap(s.queue)[k]
    ensures forall b :: b in Older(s.queue, t) <==> b in s.queue && Before(b.time, t)
  {
    var q, n := s.queue, Later(s.queue, t);
    WindowMeansDescending(q, low, width);
    Ahead(t, low);
    HitIsLookup(q, low, width, t);
    OlderAre(q, low, width, t);
    forall k | 0 <= k < |q|
      ensures After(q[k].time, t) <==> k < n
    {
      LaterInWindow(q, low, width, t);
      Compare(q[k].time, t, low);
    }
    LaterMap(q, n, t);
  }

  lemma OlderAre(q: seq<Burst>, low: Slots, width: nat, t: Slots)
    requires InWindow(q, low, width) && 0 <= Diff(t, low)
    ensures forall b :: b in Older(q, t) <==> b in q && Before(b.time, t)
  {
    LaterInWindow(q, low, width, t);
    var n := Later(q, t);
    var m := if ExactHit(q, t).Some? then n + 1 else n;
    if n < |q| {
      Compare(q[n].time, t, low);
    }
    forall k | 0 <= k < |q|
      ensures Before(q[k].time, t) <==> k >= m
    {
      Compare(q[k].time, t, low);
    }
    SuffixMembers(q, m, t);
  }

  lemma SuffixMembers(q: seq<Burst>, m: nat, t: Slots)
    requires m <= |q| && forall k :: 0 <= k < |q| ==> (Before(q[k].time, t) <==> k >= m)
    ensures forall b :: b in q[m..] <==> b in q && Before(b.time, t)
  {
    forall b | b in q && Before(b.time, t) ensures b in q[m..] {
      var k :| 0 <= k < |q| && q[k] == b;
      assert q[m..][k - m] == b;
    }
  }

  lemma HitIsLookup(q: seq<Burst>, low: Slots, width: nat, t: Slots)
    requires InWindow(q, low, width) && width < HALF && 0 <= Diff(t, low)
    ensures ExactHit(q, t) == if Timeslot(t) in AsMap(q) then Some(AsMap(q)[Timeslot(t)]) else None
  {
    WindowMeansDescending(q, low, width);
    LaterInWindow(q, low, width, t);
    var n := Later(q, t);
    if n < |q| {
      SameSlotIffCongruent(q[n].time, t);
      AsMapIs(q, q[n]);
    }
    if Timeslot(t) in AsMap(q) {
      var c := AsMap(q)[Timeslot(t)];
      var i :| 0 <= i < |q| && q[i] == c;
      SameSlotIffCongruent(c.time, t);
      Compare(c.time, t, low);
      assert i == n;
    }
  }

  lemma LaterMap(q: seq<Burst>, n: nat, t: Slots)
    requires n <= |q| && OnePerSlot(q)
    requires forall k :: 0 <= k < |q| ==> (After(q[k].time, t) <==> k < n)
    ensures AsMap(q[..n]) == map k | k in AsMap(q) && After(AsMap(q)[k].time, t) :: AsMap(q)[k]
  {
    var m := map k | k in AsMap(q) && After(AsMap(q)[k].time, t) :: AsMap(q)[k];
    forall c ensures c in q[..n] <==> Timeslot(c.time) in m && m[Timeslot(c.time)] == c {
      AsMapIs(q, c);
      if c in q {
        var i :| 0 <= i < |q| && q[i] == c;
      }
    }
    AsMapExtensional(q[..n], m);
  }
}
