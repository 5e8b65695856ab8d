/** Who holds which burst: the filler table and the store never lose or duplicate one, and
    which burst ends up in a cell. */
module Ownership {
  import opened GsmTime
  import opened Downlink

  ghost function In(c: Cell): multiset<Burst> {
    if c.Held? then multiset{c.burst} else multiset{}
  }

  ghost function CellBursts(cells: seq<Cell>): multiset<Burst> {
    if cells == [] then multiset{} else CellBursts(cells[..|cells| - 1]) + In(cells[|cells| - 1])
  }

  /** Everything the filler table and its store account for. */
  ghost function Bursts(f: Fillers): multiset<Burst> {
    CellBursts(f.cells) + f.store.Bursts()
  }

  ghost predicate AtMostOnce(m: multiset<Burst>) {
    forall b :: m[b] <= 1
  }

  lemma LastCell(cells: seq<Cell>)
    requires cells != []
    ensures CellBursts(cells) == CellBursts(cells[..|cells| - 1]) + In(cells[|cells| - 1])
  {
  }

  lemma Swap(rest: multiset<Burst>, rest': multiset<Burst>, a: multiset<Burst>, b: multiset<Burst>, c: multiset<Burst>)
    requires rest' + a == rest + b
    ensures rest' + c + a == rest + c + b
  {
    assert rest' + c + a == rest' + a + c;
  }

  lemma {:induction false} CellBurstsUpdate(cells: seq<Cell>, i: nat, c: Cell)
    requires i < |cells|
    ensures CellBursts(cells[i := c]) + In(cells[i]) == CellBursts(cells) + In(c)
  {
    hide CellBursts, In;
    var n, cells' := |cells| - 1, cells[i := c];
    LastCell(cells);
    LastCell(cells');
    if i == n {
      assert cells'[..n] == cells[..n];
      Swap(CellBursts(cells[..n]), CellBursts(cells[..n]), multiset{}, multiset{}, In(c) + In(cells[i]));
      assert In(c) + In(cells[i]) == In(cells[i]) + In(c);
    } else {
      CellBurstsUpdate(cells[..n], i, c);
      assert cells'[..n] == cells[..n][i := c];
      Swap(CellBursts(cells[..n]), CellBursts(cells'[..n]), In(cells[i]), In(c), In(cells[n]));
    }
  }

  lemma {:induction false} CellIsCounted(cells: seq<Cell>, i: nat)
    requires i < |cells|
    ensures In(cells[i]) <= CellBursts(cells)
  {
    if i < |cells| - 1 {
      CellIsCounted(cells[..|cells| - 1], i);
    }
  }

  lemma {:induction false} DefaultCellsHoldNothing(cells: seq<Cell>)
    requires forall k :: 0 <= k < |cells| ==> cells[k] == Default
    ensures CellBursts(cells) == multiset{}
  {
    if cells != [] {
      DefaultCellsHoldNothing(cells[..|cells| - 1]);
    }
  }

  lemma PutConserves(s: Store, b: Burst)
    ensures s.Put(b).Bursts() == s.Bursts() + multiset{b}
  {
    assert multiset([b] + s.items) == multiset{b} + multiset(s.items);
  }

  /** Replacing the content of cell i, and putting what was there into the store. */
  lemma ReplaceConserves(f: Fillers, i: nat, b: Burst, f': Fillers)
    requires i < |f.cells| && f.cells[i] != Held(b)
    requires f' == Fillers(f.cells[i := Held(b)],
                           if f.cells[i].Held? then f.store.Put(f.cells[i].burst) else f.store)
    ensures Bursts(f') == Bursts(f) + multiset{b}
    ensures CellBursts(f'.cells) <= CellBursts(f.cells) + multiset{b}
  {
    var c, c' := CellBursts(f.cells), CellBursts(f'.cells);
    CellBurstsUpdate(f.cells, i, Held(b));
    assert c' + In(f.cells[i]) == c + multiset{b};
    assert c' <= c' + In(f.cells[i]);
    if f.cells[i].Held? {
      PutConserves(f.store, f.cells[i].burst);
    }
    assert f'.store.Bursts() == f.store.Bursts() + In(f.cells[i]);
  }

  lemma SetFillerConserves(f: Fillers, slots: seq<Slot>, b: Burst)
    requires f.Valid() && ValidSlots(slots)
    requires b !in CellBursts(f.cells)
    ensures Bursts(SetFiller(f, slots, b)) == Bursts(f) + multiset{b}
    ensures CellBursts(SetFiller(f, slots, b).cells) <= CellBursts(f.cells) + multiset{b}
  {
    var i := CellIndex(slots, b.time);
    CellIsCounted(f.cells, i);
    ReplaceConserves(f, i, b, SetFiller(f, slots, b));
  }

  lemma {:induction false} SetFillersConserves(f: Fillers, slots: seq<Slot>, bs: seq<Burst>)
    requires f.Valid() && ValidSlots(slots)
    requires AtMostOnce(CellBursts(f.cells) + multiset(bs))
    ensures Bursts(SetFillers(f, slots, bs)) == Bursts(f) + multiset(bs)
    ensures CellBursts(SetFillers(f, slots, bs).cells) <= CellBursts(f.cells) + multiset(bs)
    decreases |bs|
  {
    hide Bursts, CellBursts, SetFiller;
    if bs != [] {
      var f' := SetFiller(f, slots, bs[0]);
      assert multiset(bs) == multiset{bs[0]} + multiset(bs[1..]) by {
        assert bs == [bs[0]] + bs[1..];
      }
      assert (CellBursts(f.cells) + multiset(bs))[bs[0]] <= 1;
      SetFillerConserves(f, slots, bs[0]);
      AtMostOnceSub(CellBursts(f'.cells) + multiset(bs[1..]), CellBursts(f.cells) + multiset(bs));
      SetFillersConserves(f', slots, bs[1..]);
    }
  }

  lemma AtMostOnceSub(m: multiset<Burst>, m': multiset<Burst>)
    requires m <= m' && AtMostOnce(m')
    ensures AtMostOnce(m)
  {
    forall b ensures m[b] <= 1 {
      assert m'[b] <= 1;
    }
  }

  /** The last of a list of bursts that maps to cell i. */
  ghost function LastFor(slots: seq<Slot>, bs: seq<Burst>, i: nat): Option<Burst>
    requires ValidSlots(slots)
  {
    if bs == [] then None
    else if CellIndex(slots, bs[|bs| - 1].time) == i then Some(bs[|bs| - 1])
    else LastFor(slots, bs[..|bs| - 1], i)
  }

  lemma {:induction false} SetFillersAppend(f: Fillers, slots: seq<Slot>, bs: seq<Burst>, b: Burst)
    requires f.Valid() && ValidSlots(slots)
    ensures SetFillers(f, slots, bs + [b]) == SetFiller(SetFillers(f, slots, bs), slots, b)
    decreases |bs|
  {
    if bs == [] {
      assert bs + [b] == [b];
    } else {
      assert (bs + [b])[1..] == bs[1..] + [b];
      SetFillersAppend(SetFiller(f, slots, bs[0]), slots, bs[1..], b);
    }
  }

  /** Setting a list of bursts leaves each cell with the last of them that maps to it. */
  lemma {:induction false} SetFillersCell(f: Fillers, slots: seq<Slot>, bs: seq<Burst>, i: nat)
    requires f.Valid() && ValidSlots(slots) && i < |f.cells|
    ensures |SetFillers(f, slots, bs).cells| == |f.cells|
    ensures SetFillers(f, slots, bs).cells[i]
         == match LastFor(slots, bs, i) case Some(b) => Held(b) case None => f.cells[i]
    decreases |bs|
  {
    if bs != [] {
      var n := |bs| - 1;
      assert bs == bs[..n] + [bs[n]];
      SetFillersAppend(f, slots, bs[..n], bs[n]);
      SetFillersCell(f, slots, bs[..n], i);
    }
  }

  lemma {:induction false} LastForIsMember(slots: seq<Slot>, bs: seq<Burst>, i: nat)
    requires ValidSlots(slots)
    ensures LastFor(slots, bs, i).None? <==> forall b :: b in bs ==> CellIndex(slots, b.time) != i
    ensures LastFor(slots, bs, i).Some? ==> LastFor(slots, bs, i).value in bs
    decreases |bs|
  {
    if bs != [] {
      LastForIsMember(slots, bs[..|bs| - 1], i);
      assert bs == bs[..|bs| - 1] + [bs[|bs| - 1]];
    }
  }
}
