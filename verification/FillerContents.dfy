/** What getBurst sends: the refinement of the whole operation, and how long a burst that was
    returned without ownership stays valid. */
module FillerContents {
  import opened Arithmetic
  import opened GsmTime
  import opened Downlink
  import opened Ownership
  import opened QueueOrder
  import opened DownlinkRuns

  /** Frame and timeslot number, and so the filler cell, depend only on the slot of the
      hyperframe. */
  lemma SameSlotSameFrame(a: Slots, b: Slots)
    requires SameSlot(a, b)
    ensures Fn(a) == Fn(b) && Tn(a) == Tn(b)
  {
    SameSlotIffCongruent(a, b);
    FrameOfTimeslot(a);
    FrameOfTimeslot(b);
  }

  lemma FrameOfTimeslot(t: Slots)
    ensures Fn(t) == Timeslot(t) / 8 && Tn(t) == Timeslot(t) % 8
  {
    var q, r := t / HYPERFRAME_SLOTS, Timeslot(t);
    assert t == q * HYPERFRAME_SLOTS + r;
    RemainderUnique(t, 8, q * HYPERFRAME_FRAMES + r / 8, r % 8);
    RemainderUnique(t / 8, HYPERFRAME_FRAMES, q, r / 8);
  }

  ghost function Content(c: Cell): Option<Burst> {
    if c.Held? then Some(c.burst) else None
  }

  ghost function Or(a: Option<Burst>, b: Option<Burst>): Option<Burst> {
    if a.Some? then a else b
  }

  /** What a cell holds after getBurst, in order of precedence: the last older queued burst set
      there, the burst just sent, the oldest of the expired bursts, or what was there before. */
  lemma CellAfter(s: TxState, t: Slots, shaped: Option<Burst>, i: nat)
    requires s.Valid() && i < |s.fillers.cells|
    ensures |Refilled(s, t, shaped).cells| == |s.fillers.cells|
    ensures var hit := ExactHit(s.queue, t);
      Content(Refilled(s, t, shaped).cells[i])
      == Or(LastFor(s.slots, Older(s.queue, t), i),
         Or(if s.slots[Tn(t)].chan != ChanIGprs && hit.Some? && CellIndex(s.slots, hit.value.time) == i
            then hit else None,
         Or(LastFor(s.slots, s.expired, i), Content(s.fillers.cells[i]))))
  {
    var f0 := SetFillers(s.fillers, s.slots, s.expired);
    SetFillersCell(s.fillers, s.slots, s.expired, i);
    SetFillersCell(Kept(f0, s.slots, ExactHit(s.queue, t), t, shaped), s.slots, Older(s.queue, t), i);
  }

  /** getBurst without a shaped burst: the burst queued for exactly this slot; else nothing if
      this is a synchronisation slot of carrier 0; else the content of the slot's filler cell, or
      the default filler if there is none. */
  lemma GotReturns(s: TxState, t: Slots, low: Slots, width: nat)
    requires s.Valid() && InWindow(s.queue, low, width) && width < HALF
    requires low <= t < low + HALF
    ensures var r, m := Got(s, t, None), AsMap(s.queue);
      && r.burst == (if Timeslot(t) in m then Some(m[Timeslot(t)])
                     else if s.index == 0 && ShouldBeSync(t) then None
                     else Or(Content(r.state.fillers.cells[CellIndex(s.slots, t)]), s.dummy))
      && (r.owner <==> Timeslot(t) in m && s.slots[Tn(t)].chan == ChanIGprs)
      && r.state.stats.missedSync == s.stats.missedSync
           + (if Timeslot(t) !in m && s.index == 0 && ShouldBeSync(t) then 1 else 0)
  {
    hide Refilled;
    GotRefinesMap(s, t, None, low, width);
  }

  lemma {:induction false} CellBurstsMember(cells: seq<Cell>, b: Burst)
    ensures b in CellBursts(cells) <==> exists i :: 0 <= i < |cells| && cells[i] == Held(b)
  {
    if cells != [] {
      var n := |cells| - 1;
      CellBurstsMember(cells[..n], b);
      if b in CellBursts(cells[..n]) {
        var i :| 0 <= i < n && cells[..n][i] == Held(b);
        assert cells[i] == Held(b);
      }
      if exists i :: 0 <= i < |cells| && cells[i] == Held(b) {
        var i :| 0 <= i < |cells| && cells[i] == Held(b);
        assert i < n ==> cells[..n][i] == Held(b);
      }
    }
  }

  /** After an exact hit on a slot that is not GPRS the caller gets the burst without owning
      it. The burst is still in the filler table exactly if no older queued burst maps to the
      same cell; otherwise it has already gone to the store. */
  lemma BorrowedStaysIff(s: TxState, t: Slots, low: Slots, width: nat)
    requires s.Valid() && InWindow(s.queue, low, width) && width < HALF && low <= t < low + HALF
    requires AtMostOnce(CellBursts(s.fillers.cells) + multiset(s.expired) + multiset(s.queue))
    requires ExactHit(s.queue, t).Some? && s.slots[Tn(t)].chan != ChanIGprs
    ensures var r, c := Got(s, t, None), CellIndex(s.slots, t);
      && r.burst == ExactHit(s.queue, t) && !r.owner
      && (r.state.fillers.cells[c] == Held(r.burst.value)
          <==> forall o :: o in Older(s.queue, t) ==> CellIndex(s.slots, o.time) != c)
      && (r.state.fillers.cells[c] != Held(r.burst.value)
          ==> r.burst.value in r.state.fillers.store.Bursts())
  {
    hide Refilled, Older;
    var hit, c := ExactHit(s.queue, t).value, CellIndex(s.slots, t);
    var f := Refilled(s, t, None);
    GotFillers(s, t, None);
    HitIsNotElsewhere(s, t, low, width);
    SameSlotSameFrame(hit.time, t);
    assert CellIndex(s.slots, hit.time) == c;
    CellAfter(s, t, None, c);
    LastForIsMember(s.slots, Older(s.queue, t), c);
    if f.cells[c] != Held(hit) {
      OverwrittenIsStored(s, t, hit);
    }
  }

  lemma OverwrittenIsStored(s: TxState, t: Slots, hit: Burst)
    requires s.Valid() && ExactHit(s.queue, t) == Some(hit) && s.slots[Tn(t)].chan != ChanIGprs
    requires AtMostOnce(CellBursts(s.fillers.cells) + multiset(s.expired) + multiset(s.queue))
    requires hit !in Older(s.queue, t) && hit !in s.expired
    requires forall i :: 0 <= i < |s.fillers.cells| ==> s.fillers.cells[i] != Held(hit)
    requires CellIndex(s.slots, hit.time) < |s.fillers.cells| == |Refilled(s, t, None).cells|
    requires Refilled(s, t, None).cells[CellIndex(s.slots, hit.time)] != Held(hit)
    ensures hit in Refilled(s, t, None).store.Bursts()
  {
    hide Refilled, CellIndex, ExactHit, Older;
    var f := Refilled(s, t, None);
    forall i | 0 <= i < |f.cells| ensures f.cells[i] != Held(hit) {
      NotInOtherCells(s, t, i);
    }
    CellBurstsMember(f.cells, hit);
    RefilledConserves(s, t, None);
    var before := Bursts(s.fillers) + multiset(s.expired)
                + (Made(ExactHit(s.queue, t)) + multiset(Older(s.queue, t)));
    assert Made(ExactHit(s.queue, t))[hit] == 1;
    assert before[hit] >= 1;
    assert Handed(s, t, None) == multiset{};
    assert hit in Bursts(f);
  }

  /** The burst sent is neither expired, nor older than itself, nor already in the table. */
  lemma HitIsNotElsewhere(s: TxState, t: Slots, low: Slots, width: nat)
    requires s.Valid() && InWindow(s.queue, low, width) && width < HALF && low <= t < low + HALF
    requires AtMostOnce(CellBursts(s.fillers.cells) + multiset(s.expired) + multiset(s.queue))
    requires ExactHit(s.queue, t).Some?
    ensures var hit := ExactHit(s.queue, t).value;
            && hit !in Older(s.queue, t) && hit !in s.expired
            && forall i :: 0 <= i < |s.fillers.cells| ==> s.fillers.cells[i] != Held(hit)
  {
    var hit := ExactHit(s.queue, t).value;
    GotRefinesMap(s, t, None, low, width);
    assert hit in s.queue && hit in multiset(s.queue);
    assert (CellBursts(s.fillers.cells) + multiset(s.expired) + multiset(s.queue))[hit] <= 1;
    CellBurstsMember(s.fillers.cells, hit);
    assert hit in s.expired ==> hit in multiset(s.expired);
  }

  lemma NotInOtherCells(s: TxState, t: Slots, i: nat)
    requires s.Valid() && ExactHit(s.queue, t).Some? && i < |s.fillers.cells|
    requires var hit := ExactHit(s.queue, t).value;
             && hit !in Older(s.queue, t) && hit !in s.expired && s.fillers.cells[i] != Held(hit)
             && (CellIndex(s.slots, hit.time) == i ==> Refilled(s, t, None).cells[i] != Held(hit))
    ensures |Refilled(s, t, None).cells| == |s.fillers.cells|
    ensures Refilled(s, t, None).cells[i] != Held(ExactHit(s.queue, t).value)
  {
    CellAfter(s, t, None, i);
    LastForIsMember(s.slots, Older(s.queue, t), i);
    LastForIsMember(s.slots, s.expired, i);
  }

  lemma ShapedIsReturned(s: TxState, t: Slots, shaped: Option<Burst>)
    requires s.Valid() && shaped.Some?
    ensures Got(s, t, shaped).burst == shaped && Got(s, t, shaped).owner
  {
    hide Refilled;
  }

  /** After any run the send thread's next getBurst returns what the shaper made, for the caller to
      keep; without it, what the map says, and it borrows the burst under the stated condition. */
  lemma SendAfterAnyRun(w: World, es: seq<Event>, w': World, t: Slots)
    requires Initial(w) && Run(w, es, w') && Enabled(w', Send(t))
    ensures w'.tx.Valid()
    ensures w'.shaped.Some? ==> var r := Got(w'.tx, t, w'.shaped); r.burst == w'.shaped && r.owner
    ensures w'.shaped.None? ==>
      var s, r, m := w'.tx, Got(w'.tx, t, w'.shaped), AsMap(w'.tx.queue);
      && r.burst == (if Timeslot(t) in m then Some(m[Timeslot(t)])
                     else if s.index == 0 && ShouldBeSync(t) then None
                     else Or(Content(r.state.fillers.cells[CellIndex(s.slots, t)]), s.dummy))
      && (Timeslot(t) in m && !r.owner ==>
           (r.state.fillers.cells[CellIndex(s.slots, t)] == Held(m[Timeslot(t)])
            <==> forall o :: o in Older(s.queue, t) ==> CellIndex(s.slots, o.time) != CellIndex(s.slots, t)))
  {
    hide Refilled, Older, CellIndex, ShouldBeSync, Initial, Run, Accounted, Got;
    InitialIsOrdered(w);
    InitialIsAccounted(w);
    QueueStaysOrdered(w, es, w');
    BurstsAreConserved(w, es, w');
    HeldAtMostOnce(w');
    if w'.shaped.Some? {
      ShapedIsReturned(w'.tx, t, w'.shaped);
    } else {
      var s, low, width := w'.tx, w'.low, w'.pub - w'.low + WINDOW;
      GotReturns(s, t, low, width);
      GotRefinesMap(s, t, None, low, width);
      if Timeslot(t) in AsMap(s.queue) && s.slots[Tn(t)].chan != ChanIGprs {
        BorrowedStaysIff(s, t, low, width);
      }
    }
  }
}
