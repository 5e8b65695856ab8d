/** The radio send loop (Transceiver::runRadioSendData in transceiver/transceiver.cpp) without
    loopback and while sending succeeds. */
module SendLoop {
  import opened GsmTime

  /** What one pass reads: the radio clock before and after sending, and the configuration. */
  datatype Reading = Reading(start: Slots, end: Slots, latency: nat, txSlots: nat)

  /** A slot handed to sendBurst, and the time the radio had reached, with its latency, when
      the pass that sent it began. */
  datatype Sent = Sent(slot: Slots, floor: Slots)

  function Max(a: nat, b: nat): nat {
    if a >= b then a else b
  }

  /** The radio time pass k works with: the time read at the end of the pass before it, if the
      clock had moved on by then, or a new reading. */
  function Radio(rs: seq<Reading>, k: nat): Slots
    requires k < |rs|
  {
    if k > 0 && Before(Radio(rs, k - 1), rs[k - 1].end) then rs[k - 1].end else rs[k].start
  }

  /** The TX time after k passes. */
  function TxAfter(t0: Slots, rs: seq<Reading>, k: nat): Slots
    requires k <= |rs|
  {
    if k == 0 then t0
    else Max(TxAfter(t0, rs, k - 1), Radio(rs, k - 1) + rs[k - 1].latency + rs[k - 1].txSlots)
  }

  /** Radio and TX time stay less than half a hyperframe apart. */
  ghost predicate Close(t0: Slots, rs: seq<Reading>) {
    forall k :: 0 <= k < |rs| ==> -HALF < TxAfter(t0, rs, k) - (Radio(rs, k) + rs[k].latency) < HALF
  }

  /** What pass j sends up to. */
  function Target(rs: seq<Reading>, j: nat): Slots
    requires j < |rs|
  {
    Radio(rs, j) + rs[j].latency + rs[j].txSlots
  }

  /** The TX time never goes back, and it is the furthest target any pass had. */
  lemma {:induction false} TxIsFurthestTarget(t0: Slots, rs: seq<Reading>, k: nat)
    requires k <= |rs|
    ensures t0 <= TxAfter(t0, rs, k)
    ensures forall j :: 0 <= j < k ==> Target(rs, j) <= TxAfter(t0, rs, k)
    ensures TxAfter(t0, rs, k) == t0 || exists j :: 0 <= j < k && TxAfter(t0, rs, k) == Target(rs, j)
  {
    hide Radio;
    if k > 0 {
      TxIsFurthestTarget(t0, rs, k - 1);
      assert TxAfter(t0, rs, k) == Max(TxAfter(t0, rs, k - 1), Target(rs, k - 1));
      hide TxAfter, Target;
    }
  }

  lemma {:induction false} TxNeverGoesBack(t0: Slots, rs: seq<Reading>, j: nat, k: nat)
    requires j <= k <= |rs|
    ensures TxAfter(t0, rs, j) <= TxAfter(t0, rs, k)
    decreases k - j
  {
    hide Radio;
    if j < k {
      TxNeverGoesBack(t0, rs, j, k - 1);
    }
  }

  /** The time pass k starts from: the radio clock with its latency. */
  function Floor(rs: seq<Reading>, k: nat): Slots
    requires k < |rs|
  {
    Radio(rs, k) + rs[k].latency
  }

  /** n consecutive slots sent in one pass. */
  ghost function Batch(first: Slots, n: nat, floor: Slots): seq<Sent> {
    if n == 0 then [] else Batch(first, n - 1, floor) + [Sent(first + n - 1, floor)]
  }

  /** Everything k passes send. */
  ghost function Sends(t0: Slots, rs: seq<Reading>, k: nat): seq<Sent>
    requires k <= |rs|
  {
    if k == 0 then []
    else
      var floor := Floor(rs, k - 1);
      var first := Max(TxAfter(t0, rs, k - 1), floor);
      Sends(t0, rs, k - 1) + Batch(first, TxAfter(t0, rs, k) - first, floor)
  }

  /** Where the first k passes resumed after an underrun: the floors of the passes that began with
      a TX time behind the radio. */
  ghost function UnderrunsOf(t0: Slots, rs: seq<Reading>, k: nat): set<Slots>
    requires k <= |rs|
  {
    if k == 0 then {}
    else UnderrunsOf(t0, rs, k - 1) + (if TxAfter(t0, rs, k - 1) < Floor(rs, k - 1) then {Floor(rs, k - 1)} else {})
  }

  /** The slots sent strictly increase, the next one included; a slot that does not follow the
      one before it is where an underrun resumed; none was in the past of the radio. */
  ghost predicate Chain(sent: seq<Sent>, next: Slots, underruns: set<Slots>) {
    && (forall i :: 0 <= i < |sent| ==> sent[i].slot < SlotAt(sent, next, i + 1))
    && (forall i :: 0 <= i < |sent| ==>
          SlotAt(sent, next, i + 1) == sent[i].slot + 1 || SlotAt(sent, next, i + 1) in underruns)
    && (forall i :: 0 <= i < |sent| ==> sent[i].floor <= sent[i].slot)
  }

  ghost function SlotAt(sent: seq<Sent>, next: Slots, i: nat): Slots
    requires i <= |sent|
  {
    if i < |sent| then sent[i].slot else next
  }

  lemma {:induction false} ChainIncreases(sent: seq<Sent>, next: Slots, underruns: set<Slots>, i: nat, j: nat)
    requires Chain(sent, next, underruns) && i < j <= |sent|
    ensures sent[i].slot < SlotAt(sent, next, j)
    decreases j - i
  {
    if i + 1 < j {
      ChainIncreases(sent, next, underruns, i + 1, j);
    }
  }

  lemma ChainSend(sent: seq<Sent>, next: Slots, floor: Slots, underruns: set<Slots>)
    requires Chain(sent, next, underruns) && floor <= next
    ensures Chain(sent + [Sent(next, floor)], next + 1, underruns)
  {
    var s' := sent + [Sent(next, floor)];
    forall i | 0 <= i < |sent|
      ensures s'[i] == sent[i] && SlotAt(s', next + 1, i + 1) == SlotAt(sent, next, i + 1)
    {
    }
  }

  /** After an underrun sending resumes later. */
  lemma ChainResume(sent: seq<Sent>, next: Slots, later: Slots, underruns: set<Slots>)
    requires Chain(sent, next, underruns) && next < later
    ensures Chain(sent, later, underruns + {later})
  {
  }

  lemma Regroup(a: seq<Sent>, b: seq<Sent>, c: seq<Sent>)
    ensures a + b + c == a + (b + c)
  {
  }

  lemma RegroupSets(a: set<Slots>, b: set<Slots>, c: set<Slots>)
    ensures a + b + c == a + (b + c)
  {
  }

  lemma PassIsClose(t0: Slots, rs: seq<Reading>, k: nat)
    requires Close(t0, rs) && k < |rs|
    ensures -HALF < TxAfter(t0, rs, k) - Floor(rs, k) < HALF
  {
    hide Radio;
  }

  lemma TxMoves(t0: Slots, rs: seq<Reading>, k: nat)
    requires k < |rs|
    ensures TxAfter(t0, rs, k + 1) == Max(TxAfter(t0, rs, k), Floor(rs, k) + rs[k].txSlots)
  {
    hide Radio;
  }

  /** What pass k adds to the slots sent. */
  lemma SendsMove(t0: Slots, rs: seq<Reading>, k: nat, first: Slots)
    requires k < |rs| && first == Max(TxAfter(t0, rs, k), Floor(rs, k)) && first <= TxAfter(t0, rs, k + 1)
    ensures Sends(t0, rs, k + 1) == Sends(t0, rs, k) + Batch(first, TxAfter(t0, rs, k + 1) - first, Floor(rs, k))
  {
    hide Radio, Batch, TxAfter;
  }

  lemma UnderrunsMove(t0: Slots, rs: seq<Reading>, k: nat)
    requires k < |rs|
    ensures UnderrunsOf(t0, rs, k + 1)
         == UnderrunsOf(t0, rs, k) + (if TxAfter(t0, rs, k) < Floor(rs, k) then {Floor(rs, k)} else {})
  {
    hide Floor, TxAfter;
  }

  /** The loop after k passes, begun with TX time t0, slots s0 sent and underruns u0. */
  ghost predicate OnTrack(t0: Slots, s0: seq<Sent>, u0: set<Slots>, rs: seq<Reading>, k: nat,
                          tx: Slots, sent: seq<Sent>, underruns: set<Slots>)
  {
    && k <= |rs| && tx == TxAfter(t0, rs, k) && sent == s0 + Sends(t0, rs, k)
    && underruns == u0 + UnderrunsOf(t0, rs, k)
  }

  lemma TrackStarts(t0: Slots, s0: seq<Sent>, u0: set<Slots>, rs: seq<Reading>)
    ensures OnTrack(t0, s0, u0, rs, 0, t0, s0, u0)
  {
    assert s0 + [] == s0 && u0 + {} == u0;
  }

  lemma TrackIs(t0: Slots, s0: seq<Sent>, u0: set<Slots>, rs: seq<Reading>,
                tx: Slots, sent: seq<Sent>, underruns: set<Slots>)
    requires OnTrack(t0, s0, u0, rs, |rs|, tx, sent, underruns)
    ensures tx == TxAfter(t0, rs, |rs|) && sent == s0 + Sends(t0, rs, |rs|)
    ensures underruns == u0 + UnderrunsOf(t0, rs, |rs|)
  {
  }

  lemma TrackIsClose(t0: Slots, s0: seq<Sent>, u0: set<Slots>, rs: seq<Reading>, k: nat,
                     tx: Slots, sent: seq<Sent>, underruns: set<Slots>)
    requires Close(t0, rs) && k < |rs| && OnTrack(t0, s0, u0, rs, k, tx, sent, underruns)
    ensures -HALF < tx - Floor(rs, k) < HALF
  {
    hide Close, Sends, UnderrunsOf, TxAfter;
    PassIsClose(t0, rs, k);
  }

  lemma TrackTime(t0: Slots, s0: seq<Sent>, u0: set<Slots>, rs: seq<Reading>, k: nat,
                  tx: Slots, sent: seq<Sent>, underruns: set<Slots>)
    requires OnTrack(t0, s0, u0, rs, k, tx, sent, underruns)
    ensures tx == TxAfter(t0, rs, k)
  {
    hide TxAfter, Sends, UnderrunsOf;
  }

  lemma UpdateMoves(t0: Slots, n0: Slots, rs: seq<Reading>, k: nat)
    requires k < |rs|
    ensures var tx, due := TxAfter(t0, rs, k + 1), NextUpdate(t0, n0, rs, k);
      NextUpdate(t0, n0, rs, k + 1) == if After(tx, due) then tx + SLOTS_PER_SECOND else due
  {
    hide TxAfter, After;
  }

  /** One pass later. */
  lemma TrackNext(t0: Slots, s0: seq<Sent>, u0: set<Slots>, rs: seq<Reading>, k: nat,
                  tx: Slots, sent: seq<Sent>, underruns: set<Slots>)
    requires k < |rs| && OnTrack(t0, s0, u0, rs, k, tx, sent, underruns)
    ensures var floor := Floor(rs, k);
      var tx', first := Max(tx, floor + rs[k].txSlots), Max(tx, floor);
      OnTrack(t0, s0, u0, rs, k + 1, tx', sent + Batch(first, tx' - first, floor),
              underruns + if tx < floor then {floor} else {})
  {
    var floor, first := Floor(rs, k), Max(tx, Floor(rs, k));
    TxMoves(t0, rs, k);
    SendsMove(t0, rs, k, first);
    UnderrunsMove(t0, rs, k);
    hide TxAfter, Sends, UnderrunsOf, Floor, Batch;
    Regroup(s0, Sends(t0, rs, k), Batch(first, TxAfter(t0, rs, k + 1) - first, floor));
    RegroupSets(u0, UnderrunsOf(t0, rs, k), if tx < floor then {floor} else {});
  }

  // ---- Which clock reading a pass uses ----

  /** The radio clock never goes back, and all readings lie within half a hyperframe. */
  ghost predicate Steady(rs: seq<Reading>) {
    && (forall k :: 0 <= k < |rs| ==> rs[k].start <= rs[k].end)
    && (forall j, k :: 0 <= j < k < |rs| ==> rs[j].end <= rs[k].start)
    && (forall j, k :: 0 <= j <= k < |rs| ==> rs[k].end - rs[j].start < HALF)
  }

  /** With such a clock a pass waits for a new reading exactly if the clock stood still since the
      reading of the pass before; otherwise it goes on with what it read at the end of that pass.
      So a pass never uses a reading older than the end of the one before. */
  lemma {:induction false} RadioAdvances(rs: seq<Reading>, k: nat)
    requires Steady(rs) && k < |rs|
    ensures rs[0].start <= Radio(rs, k) <= rs[k].start
    ensures k == 0 ==> Radio(rs, k) == rs[k].start
    ensures k > 0 ==>
      && Radio(rs, k - 1) <= rs[k - 1].end <= Radio(rs, k)
      && (Radio(rs, k - 1) < rs[k - 1].end ==> Radio(rs, k) == rs[k - 1].end)
      && (Radio(rs, k - 1) == rs[k - 1].end ==> Radio(rs, k) == rs[k].start)
  {
    if k > 0 {
      RadioAdvances(rs, k - 1);
      assert rs[k - 1].end - rs[0].start < HALF;
      DiffInWindow(Radio(rs, k - 1), rs[k - 1].end);
    }
  }

  // ---- Telling the upper layer the time ----

  /** When the next clock update is due after k passes. */
  function NextUpdate(t0: Slots, n0: Slots, rs: seq<Reading>, k: nat): Slots
    requires k <= |rs|
  {
    if k == 0 then n0
    else if After(TxAfter(t0, rs, k), NextUpdate(t0, n0, rs, k - 1)) then TxAfter(t0, rs, k) + SLOTS_PER_SECOND
    else NextUpdate(t0, n0, rs, k - 1)
  }

  /** The TX times told in k passes. */
  function UpdatesIn(t0: Slots, n0: Slots, rs: seq<Reading>, k: nat): seq<Slots>
    requires k <= |rs|
  {
    if k == 0 then []
    else UpdatesIn(t0, n0, rs, k - 1)
         + if After(TxAfter(t0, rs, k), NextUpdate(t0, n0, rs, k - 1)) then [TxAfter(t0, rs, k)] else []
  }

  /** TX time and the next update stay less than half a hyperframe apart. */
  ghost predicate Told(t0: Slots, n0: Slots, rs: seq<Reading>) {
    forall k :: 0 < k <= |rs| ==> -HALF < TxAfter(t0, rs, k) - NextUpdate(t0, n0, rs, k - 1) < HALF
  }

  /** The upper layer was told the times `u`, each more than one second of slots after the one
      before; TX time is never further than that from the last one told, and the next update is
      due when it would be. */
  ghost predicate EverySecond(u: seq<Slots>, tx: Slots, due: Slots, n0: Slots) {
    && tx <= due
    && due == (if u == [] then n0 else u[|u| - 1] + 217 * 8)
    && (forall i :: 0 <= i < |u| ==> u[i] > n0)
    && (forall i :: 0 < i < |u| ==> u[i - 1] + 217 * 8 < u[i])
  }

  lemma NextSecond(u: seq<Slots>, tx: Slots, due: Slots, n0: Slots, tx': Slots)
    requires EverySecond(u, tx, due, n0) && -HALF < tx' - due < HALF
    ensures if After(tx', due) then EverySecond(u + [tx'], tx', tx' + SLOTS_PER_SECOND, n0)
            else EverySecond(u, tx', due, n0)
  {
    DiffInWindow(tx', due);
    hide Diff;
  }

  lemma {:induction false} ToldEverySecond(t0: Slots, n0: Slots, rs: seq<Reading>, k: nat)
    requires Told(t0, n0, rs) && k <= |rs| && t0 <= n0
    ensures EverySecond(UpdatesIn(t0, n0, rs, k), TxAfter(t0, rs, k), NextUpdate(t0, n0, rs, k), n0)
  {
    hide TxAfter, EverySecond, After;
    if k > 0 {
      ToldEverySecond(t0, n0, rs, k - 1);
      NextSecond(UpdatesIn(t0, n0, rs, k - 1), TxAfter(t0, rs, k - 1), NextUpdate(t0, n0, rs, k - 1), n0,
                 TxAfter(t0, rs, k));
      assert UpdatesIn(t0, n0, rs, k - 1) + [] == UpdatesIn(t0, n0, rs, k - 1);
    } else {
      NothingTold(t0, n0, rs);
    }
  }

  lemma NothingTold(t0: Slots, n0: Slots, rs: seq<Reading>)
    requires t0 <= n0
    ensures EverySecond(UpdatesIn(t0, n0, rs, 0), TxAfter(t0, rs, 0), NextUpdate(t0, n0, rs, 0), n0)
  {
  }

  class SendLoop {
    var txTime: Slots           // m_txTime
    var nextClockUpd: Slots     // m_nextClockUpdTime
    ghost var sent: seq<Sent>
    ghost var underruns: set<Slots>

    constructor ()
      ensures Valid() && sent == [] && txTime == nextClockUpd == 0
    {
      txTime, nextClockUpd, sent, underruns := 0, 0, [], {};
    }

    ghost predicate Valid()
      reads this
    {
      Chain(sent, txTime, underruns)
    }

    /** The sending part of a pass: n slots from the local TX time on. */
    method SendSlots(first: Slots, n: nat, ghost floor: Slots) returns (t: Slots)
      requires Chain(sent, first, underruns) && floor <= first
      modifies this`sent
      ensures t == first + n && sent == old(sent) + Batch(first, n, floor)
      ensures Chain(sent, t, underruns)
    {
      hide Chain;
      t := first;
      var left := n;
      while left > 0
        invariant 0 <= left <= n && t == first + (n - left) && Chain(sent, t, underruns)
        invariant sent == old(sent) + Batch(first, n - left, floor)
      {
        ChainSend(sent, t, floor, underruns);
        sent := sent + [Sent(t, floor)];   // sendBurst(txTime)
        t := t + 1;
        left := left - 1;
      }
    }

    /** Where a pass starts sending and how many slots it sends. */
    method Plan(radioCurrent: Slots, txSlots: nat) returns (t: Slots, n: nat)
      requires -HALF < txTime - radioCurrent < HALF
      ensures t == Max(txTime, radioCurrent)
      ensures t + n == Max(txTime, radioCurrent + txSlots)
    {
      DiffInWindow(txTime, radioCurrent);
      t, n := txTime, txSlots;
      if AtOrAfter(t, radioCurrent) {
        // TX time is at least current radio time: start sending from current TX time
        var diff := t - radioCurrent;
        n := if n > diff then n - diff else 0;
      } else {
        // underrun: start sending from current radio time
        t := radioCurrent;
      }
    }

    /** One pass of the loop. */
    method Pass(radioTime: Slots, latency: nat, txSlots: nat)
      requires Valid()
      requires -HALF < txTime - (radioTime + latency) < HALF
      modifies this
      ensures Valid()
      ensures txTime == Max(old(txTime), radioTime + latency + txSlots)
      ensures var first := Max(old(txTime), radioTime + latency);
              sent == old(sent) + Batch(first, txTime - first, radioTime + latency)
      ensures underruns == old(underruns) + if old(txTime) < radioTime + latency then {radioTime + latency} else {}
      ensures nextClockUpd == if After(txTime, old(nextClockUpd)) then txTime + SLOTS_PER_SECOND
                              else old(nextClockUpd)
    {
      hide Chain, Batch, Before, After;
      var radioCurrent := radioTime + latency;
      var t, n := Plan(radioCurrent, txSlots);
      if t > txTime {
        ChainResume(sent, txTime, t, underruns);
        underruns := underruns + {radioCurrent};
      }
      t := SendSlots(t, n, radioCurrent);
      txTime := t;
      if After(txTime, nextClockUpd) {
        nextClockUpd := txTime + SLOTS_PER_SECOND;
      }
    }

    /** Pass k of a loop that began with TX time t0 and s0 sent. */
    method PassNumber(k: nat, rs: seq<Reading>, radioTime: Slots,
                      ghost t0: Slots, ghost n0: Slots, ghost s0: seq<Sent>, ghost u0: set<Slots>)
      requires Valid() && Close(t0, rs) && k < |rs| && radioTime == Radio(rs, k)
      requires OnTrack(t0, s0, u0, rs, k, txTime, sent, underruns) && nextClockUpd == NextUpdate(t0, n0, rs, k)
      modifies this
      ensures Valid() && OnTrack(t0, s0, u0, rs, k + 1, txTime, sent, underruns)
      ensures nextClockUpd == NextUpdate(t0, n0, rs, k + 1)
    {
      hide OnTrack, Radio, Close, Chain, Before, After, Batch, NextUpdate, TxAfter;
      ghost var tx, before, gaps := txTime, sent, underruns;
      TrackIsClose(t0, s0, u0, rs, k, tx, before, gaps);
      assert radioTime + rs[k].latency == Floor(rs, k);
      hide Floor;
      Pass(radioTime, rs[k].latency, rs[k].txSlots);
      TrackNext(t0, s0, u0, rs, k, tx, before, gaps);
      TrackTime(t0, s0, u0, rs, k + 1, txTime, sent, underruns);
      UpdateMoves(t0, n0, rs, k);
    }

    /** The whole loop over a sequence of clock readings. */
    method Run(rs: seq<Reading>)
      requires Valid() && Close(txTime, rs)
      modifies this
      ensures Valid()
      ensures txTime == TxAfter(old(txTime), rs, |rs|)
      ensures sent == old(sent) + Sends(old(txTime), rs, |rs|)
      ensures underruns == old(underruns) + UnderrunsOf(old(txTime), rs, |rs|)
      ensures nextClockUpd == NextUpdate(old(txTime), old(nextClockUpd), rs, |rs|)
    {
      hide Before, Chain, OnTrack, Close, After;
      ghost var t0, n0, s0, u0 := txTime, nextClockUpd, sent, underruns;
      TrackStarts(t0, s0, u0, rs);
      var k := 0;
      var wait, radioTime := true, 0;
      while k < |rs|
        invariant Valid() && k <= |rs| && OnTrack(t0, s0, u0, rs, k, txTime, sent, underruns)
        invariant nextClockUpd == NextUpdate(t0, n0, rs, k)
        invariant k > 0 ==> radioTime == if wait then Radio(rs, k - 1) else rs[k - 1].end
        invariant wait <==> k == 0 || !Before(Radio(rs, k - 1), rs[k - 1].end)
      {
        if wait {
          radioTime := rs[k].start;
        } else {
          wait := true;
        }
        assert radioTime == Radio(rs, k);
        PassNumber(k, rs, radioTime, t0, n0, s0, u0);
        if Before(radioTime, rs[k].end) {
          wait := false;
          radioTime := rs[k].end;
        }
        k := k + 1;
      }
      TrackIs(t0, s0, u0, rs, txTime, sent, underruns);
    }
  }
}
