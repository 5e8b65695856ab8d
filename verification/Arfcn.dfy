/** ARFCN: the downlink side of one carrier (transceiver/transceiver.cpp). The receiving thread
    calls AddBurst, the radio send thread GetBurst; both hold the TX mutex while they edit the
    lists, so each call is one step here. */
module Arfcn {
  import opened GsmTime
  import opened Downlink

  class Arfcn {
    const index: nat
    const dummy: Option<Burst>     // the default filler of m_fillerTable
    var queue: seq<Burst>          // m_txQueue, latest burst first
    var expired: seq<Burst>        // m_expired, newest first
    const cells: array<Cell>       // m_fillerTable, row by row
    var store: Store               // m_txBurstStore
    var slots: seq<Slot>
    var stats: Stats

    ghost predicate Valid()
      reads this, cells
    {
      State().Valid()
    }

    ghost function State(): TxState
      reads this, cells
    {
      TxState(index, dummy, queue, expired, Fillers(cells[..], store), slots, stats)
    }

    /** `frames` is the length given to TxFillerTable::init, raised to its minimum. */
    constructor (index: nat, frames: nat, dummy: Option<Burst>)
      ensures Valid() && fresh(cells)
      ensures queue == expired == [] && store == Store([], multiset{})
      ensures forall k :: 0 <= k < cells.Length ==> cells[k] == Default
      ensures slots == seq(8, _ => Slot(ChanNone, 26))
      ensures stats == Stats(0, 0, seq(8, _ => 0), 0, 0, 0, 0, 0)
      ensures this.index == index && this.dummy == dummy
    {
      this.index, this.dummy := index, dummy;
      queue, expired, store := [], [], Store([], multiset{});
      cells := new Cell[8 * if frames >= 102 then frames else 102](_ => Default);
      slots := seq(8, _ => Slot(ChanNone, 26));
      stats := Stats(0, 0, seq(8, _ => 0), 0, 0, 0, 0, 0);
    }

    method InitTimeslot(slot: nat, chan: Chan)
      requires Valid()
      modifies this`slots
      ensures Valid()
      ensures State() == if slot > 7 || old(slots)[slot].chan == chan then old(State())
                         else old(State()).(slots := old(slots)[slot := Slot(chan, ChanModulus(chan))])
    {
      if slot > 7 || slots[slot].chan == chan {
        return;
      }
      slots := slots[slot := Slot(chan, ChanModulus(chan))];
    }

    /** addBurst, the walk down the queue: past every burst that is later than the new one. */
    method FindPlace(time: Slots) returns (n: nat)
      ensures n == Passed(queue, time)
    {
      n := 0;
      while n < |queue| && !After(time, queue[n].time) && !SameSlot(time, queue[n].time)
        invariant n <= |queue| && Passed(queue, time) == n + Passed(queue[n..], time)
      {
        assert queue[n..][1..] == queue[n + 1..];
        n := n + 1;
      }
    }

    method AddBurst(b: Burst, txTime: Slots)
      requires Valid()
      modifies this`queue, this`expired, this`store, this`stats
      ensures Valid()
      ensures State() == Added(old(State()), b, txTime)
    {
      hide Diff, Passed;
      stats := stats.(lastIn := b.time, dwIn := stats.dwIn + 1,
                      dwInSlot := stats.dwInSlot[Tn(b.time) := stats.dwInSlot[Tn(b.time)] + 1]);
      if b.filler || After(txTime, b.time) {
        if !b.filler {
          stats := stats.(expiredOnRecv := stats.expiredOnRecv + 1);
        }
        expired := [b] + expired;
        return;
      }
      if After(b.time, txTime + WINDOW) {
        stats := stats.(future := stats.future + 1);
        expired := [b] + expired;
        return;
      }
      var n := FindPlace(b.time);
      if n < |queue| && SameSlot(b.time, queue[n].time) {
        store := store.Put(b);
        stats := stats.(duplicate := stats.duplicate + 1);
        return;
      }
      queue := queue[..n] + [b] + queue[n..];
    }

    /** TxFillerTable::set on this carrier's table. */
    method SetFiller(b: Burst)
      requires Valid()
      modifies this`store, cells
      ensures Valid()
      ensures Fillers(cells[..], store) == Downlink.SetFiller(old(Fillers(cells[..], store)), slots, b)
    {
      var i := CellIndex(slots, b.time);
      if cells[i] == Held(b) {
        return;
      }
      if cells[i].Held? {
        store := store.Put(cells[i].burst);
      }
      cells[i] := Held(b);
    }

    /** getBurst, first part: filler and expired bursts move to the filler table. */
    method MoveExpired()
      requires Valid()
      modifies this`expired, this`store, cells
      ensures Valid() && expired == []
      ensures Fillers(cells[..], store) == SetFillers(old(Fillers(cells[..], store)), slots, old(expired))
    {
      ghost var f0 := SetFillers(Fillers(cells[..], store), slots, expired);
      while expired != []
        invariant Valid()
        invariant SetFillers(Fillers(cells[..], store), slots, expired) == f0
        decreases |expired|
      {
        var b := expired[0];
        expired := expired[1..];
        SetFiller(b);
      }
    }

    /** getBurst, last part of the queue walk: everything from position n on is out of date. */
    method MoveOlder(n: nat) returns (gone: nat)
      requires Valid() && n <= |queue|
      modifies this`queue, this`store, cells
      ensures Valid() && queue == old(queue)[..n] && gone == |old(queue)| - n
      ensures Fillers(cells[..], store) == SetFillers(old(Fillers(cells[..], store)), slots, old(queue)[n..])
    {
      gone := 0;
      ghost var f0 := SetFillers(Fillers(cells[..], store), slots, queue[n..]);
      while n < |queue|
        invariant Valid() && n <= |queue| && queue[..n] == old(queue)[..n]
        invariant gone == |old(queue)| - |queue|
        invariant SetFillers(Fillers(cells[..], store), slots, queue[n..]) == f0
        decreases |queue|
      {
        var b := queue[n];
        ghost var rest := queue[n..];
        queue := queue[..n] + queue[n + 1..];
        assert queue[n..] == rest[1..];
        SetFiller(b);
        gone := gone + 1;
      }
    }

    /** getBurst, the queue walk: the first burst that is not after `time`. */
    method FindDue(time: Slots) returns (n: nat)
      ensures n == Later(queue, time)
    {
      n := 0;
      while n < |queue| && !AtOrBefore(queue[n].time, time)
        invariant n <= |queue| && Later(queue, time) == n + Later(queue[n..], time)
      {
        assert queue[n..][1..] == queue[n + 1..];
        n := n + 1;
      }
    }

    /** getBurst, a queued burst for exactly the slot being sent leaves the queue. */
    method TakeHit(n: nat, time: Slots, shaped: Option<Burst>) returns (burst: Option<Burst>, owner: bool)
      requires Valid() && n == Later(queue, time)
      requires shaped.Some? ==> shaped.value !in queue
      modifies this`queue, this`store, cells
      ensures Valid() && queue == old(queue)[..n] + Older(old(queue), time)
      ensures var hit := ExactHit(old(queue), time);
              && Fillers(cells[..], store) == Kept(old(Fillers(cells[..], store)), slots, hit, time, shaped)
              && burst == (if shaped.Some? then shaped else hit)
              && owner == (shaped.Some? || (hit.Some? && slots[Tn(time)].chan == ChanIGprs))
    {
      burst, owner := shaped, shaped.Some?;
      if n == |queue| || !SameSlot(queue[n].time, time) {
        return;
      }
      var b := queue[n];
      queue := queue[..n] + queue[n + 1..];
      if burst.None? {
        burst := Some(b);
      }
      if slots[Tn(time)].chan != ChanIGprs {
        SetFiller(b);
      } else if burst == Some(b) {
        owner := true;
      } else {
        store := store.Put(b);
      }
    }

    /** getBurst, all that happens under the TX mutex. */
    method ClearDue(time: Slots, shaped: Option<Burst>) returns (burst: Option<Burst>, owner: bool)
      requires Valid()
      requires shaped.Some? ==> shaped.value !in queue
      modifies this`queue, this`expired, this`store, this`stats, cells
      ensures Valid() && State() == Cleared(old(State()), time, shaped)
      ensures var hit := ExactHit(old(queue), time);
              && burst == (if shaped.Some? then shaped else hit)
              && owner == (shaped.Some? || (hit.Some? && slots[Tn(time)].chan == ChanIGprs))
    {
      hide Diff, Downlink.SetFiller, CellIndex, SetFillers, Kept, AtOrBefore, Later;
      ghost var q := queue;
      MoveExpired();
      var n := FindDue(time);
      burst, owner := TakeHit(n, time, shaped);
      assert queue[n..] == Older(q, time) && queue[..n] == q[..n];
      var gone := MoveOlder(n);
      stats := stats.(expiredOnSend := stats.expiredOnSend + gone);
    }

    /** The burst to send at `time`; the caller owns it exactly when `owner` is set. */
    method GetBurst(time: Slots, shaped: Option<Burst>) returns (burst: Option<Burst>, owner: bool)
      requires Valid()
      requires shaped.Some? ==> shaped.value !in queue   // the shaper makes a new object
      modifies this`queue, this`expired, this`store, this`stats, cells
      ensures Valid()
      ensures Sent(burst, owner, State()) == Got(old(State()), time, shaped)
    {
      burst, owner := ClearDue(time, shaped);
      if burst.Some? {
        return;
      }
      var sync := index == 0 && ShouldBeSync(time);
      if !sync {
        var cell := cells[CellIndex(slots, time)];
        burst := if cell.Default? then dummy else Some(cell.burst);
        return;
      }
      stats := stats.(missedSync := stats.missedSync + 1);
    }
  }
}
