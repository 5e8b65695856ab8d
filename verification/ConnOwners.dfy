/** Which connection owns a UE, over runs of the connection table (ybts.cpp). */
module ConnOwners {
  import opened ConnTable
  import opened ConnRuns

  /** A connection whose rivals are still to be found, or that is itself a rival to be dropped. */
  ghost predicate Contested(w: World, c: Conn) {
    (c.uid in w.scans && c.ue == Some(w.scans[c.uid])) || c.connId in w.ueDrops
  }

  ghost predicate Rival(a: Conn, b: Conn) {
    a.uid != b.uid && !a.removed && !b.removed && a.ue.Some? && a.ue == b.ue
  }

  /** Two active connections share a UE only while one of them is being sorted out. */
  ghost predicate UesOwned(w: World) {
    forall a, b :: a in w.t.conns && b in w.t.conns && Rival(a, b) ==> Contested(w, a) || Contested(w, b)
  }

  /** Steps that set no UE leave a contested connection contested, unless they settle it. */
  lemma StepContested(w: World, e: Event, cfg: Config, c: Conn, d: Conn)
    requires Identified(w) && c in w.t.conns && IsEffect(w.t, e, cfg, c, d) && !d.removed
    requires c.ue.Some? && Contested(w, c)
    ensures Contested(Next(w, e, cfg), d)
         || (e.CollectUe? && e.uid == c.uid && c.uid in w.scans && c.ue == Some(w.scans[c.uid]))
  {
  }

  /** A connection that gets its UE is scanned for; one that was scanned marks its rivals. */
  lemma NewOwner(w: World, e: Event, cfg: Config, c: Conn, d: Conn)
    requires c in w.t.conns && IsEffect(w.t, e, cfg, c, d) && c.ue.None? && d.ue.Some?
    ensures Contested(Next(w, e, cfg), d)
  {
    assert UeIsNew(w.t, c.uid);
  }

  /** The search collects exactly the ids of the other active connections with the UE. */
  lemma CollectedIff(w: World, uid: nat, cfg: Config, id: nat)
    requires uid in w.scans
    ensures id in Next(w, CollectUe(uid), cfg).ueDrops
       <==> id in w.ueDrops || exists c :: c in w.t.conns && c.connId == id && c.uid != uid && !c.removed
                                          && c.ue == Some(w.scans[uid])
  {
  }

  lemma StepOwned(w: World, e: Event, cfg: Config)
    requires Identified(w) && UesOwned(w)
    ensures UesOwned(Next(w, e, cfg))
  {
    var n := Next(w, e, cfg);
    forall a', b' | a' in n.t.conns && b' in n.t.conns && Rival(a', b')
      ensures Contested(n, a') || Contested(n, b')
    {
      var a := NextMember(w, e, cfg, a');
      var b := NextMember(w, e, cfg, b');
      hide Next, Effect, Contested, Identified;
      PairOwned(w, e, cfg, a, b, a', b');
    }
  }

  lemma PairOwned(w: World, e: Event, cfg: Config, a: Conn, b: Conn, a': Conn, b': Conn)
    requires Identified(w) && UesOwned(w) && a in w.t.conns && b in w.t.conns && Rival(a', b')
    requires IsEffect(w.t, e, cfg, a, a') && IsEffect(w.t, e, cfg, b, b')
    ensures var n := Next(w, e, cfg); Contested(n, a') || Contested(n, b')
  {
    EffectAges(w.t, e, cfg, a, a');
    EffectAges(w.t, e, cfg, b, b');
    if a.ue.None? {
      NewOwner(w, e, cfg, a, a');
    } else if b.ue.None? {
      NewOwner(w, e, cfg, b, b');
    } else if Contested(w, a) {
      StepContested(w, e, cfg, a, a');
    } else {
      StepContested(w, e, cfg, b, b');
    }
  }

  lemma {:induction false} UesStayOwned(w: World, es: seq<Event>, cfg: Config)
    requires Identified(w) && UesOwned(w)
    ensures UesOwned(After(w, es, cfg))
    decreases |es|
  {
    hide UesOwned, Identified;
    if es != [] {
      StepIdentified(w, es[0], cfg);
      StepOwned(w, es[0], cfg);
      UesStayOwned(Next(w, es[0], cfg), es[1..], cfg);
    }
  }

  /** Once every setUE is completed, its search and the drops it caused included, no two active
      connections share a UE. */
  lemma NoSharedUe(es: seq<Event>, cfg: Config, a: Conn, b: Conn)
    requires var w := After(Start(), es, cfg);
      && a in w.t.conns && b in w.t.conns && !a.removed && !b.removed && a.ue.Some? && a.ue == b.ue
      && w.scans == map[] && w.ueDrops == {}
    ensures a == b
  {
    UesStayOwned(Start(), es, cfg);
    OneEntryPerId(Start(), es, cfg);
    SameUid(After(Start(), es, cfg).t.conns, a, b);
  }
}
