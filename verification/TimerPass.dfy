/** What a timer pass does and, as much, what it leaves alone (YBTSSignalling::checkTimers in
    ybts.cpp), and how long an idle and a released connection live. */
module TimerPass {
  import opened ConnTable
  import opened ConnRuns

  // ---- One pass ----

  /** The idle connections put aside are exactly those whose timer runs and is due. */
  lemma {:induction false} IdleIdsIff(cs: seq<Conn>, time: nat, exiting: bool, id: nat)
    ensures id in IdleIds(cs, time, exiting)
       <==> exists c :: c in cs && c.connId == id && !c.removed && c.timeout != 0 && (exiting || c.timeout <= time)
  {
    if cs != [] {
      IdleIdsIff(cs[1..], time, exiting, id);
      assert forall c :: c in cs <==> c == cs[0] || c in cs[1..] by {
        assert cs == [cs[0]] + cs[1..];
      }
    }
  }

  /** ... provided the cached minimum has come; otherwise the pass does nothing. */
  lemma PutAsideIff(t: Table, time: nat, exiting: bool, id: nat)
    ensures id in ToDrop(t, time, exiting)
       <==> t.cache.have && 0 < t.cache.min <= time
            && exists c :: c in t.conns && c.connId == id && !c.removed && c.timeout != 0
                           && (exiting || c.timeout <= time)
  {
    IdleIdsIff(t.conns, time, exiting, id);
  }

  ghost predicate Has(cs: seq<Conn>, uid: nat) {
    exists d :: d in cs && d.uid == uid
  }

  /** A released entry is deleted exactly if its timer is due. An active one stays; its SS session
      ends exactly if that timer runs and is due, its authentication too, but not because of a
      shutdown. An entry with nothing due is left as it is. */
  lemma PassOnEntry(t: Table, time: nat, exiting: bool, c: Conn)
    requires Unique(t.conns) && c in t.conns && t.cache.have && 0 < t.cache.min <= time
    ensures var cs := Scanned(t, time, exiting).conns;
      && (c.removed ==> (Has(cs, c.uid) <==> !exiting && time < c.timeout)
                        && (c in cs <==> !exiting && time < c.timeout))
      && (!c.removed ==>
            c.(ssTout := if c.ssTout != 0 && (exiting || c.ssTout <= time) then 0 else c.ssTout,
               authTout := if c.authTout != 0 && c.authTout <= time then 0 else c.authTout) in cs)
      && (c in cs <==> if c.removed then !exiting && time < c.timeout
                       else (c.ssTout == 0 || (!exiting && time < c.ssTout)) && (c.authTout == 0 || time < c.authTout))
  {
    var f := d => ScanOne(d, time, exiting);
    var cs := Scanned(t, time, exiting).conns;
    ScanKeepsUnique(t.conns, time, exiting);
    forall d | d in ScanOne(c, time, exiting) ensures d in cs {
      FlatMember(t.conns, f, d);
    }
    forall d | d in cs && d.uid == c.uid ensures d in ScanOne(c, time, exiting) {
      FlatMember(t.conns, f, d);
      var b :| b in t.conns && d in f(b);
      SameUid(t.conns, b, c);
    }
    if !c.removed {
      assert ScanOne(c, time, exiting)[0] in ScanOne(c, time, exiting);
    }
  }

  // ---- Runs ----

  /** What an event makes of an entry is in the next table. */
  lemma EffectIsNext(w: World, e: Event, cfg: Config, c: Conn, d: Conn)
    requires Unique(w.t.conns) && c in w.t.conns && IsEffect(w.t, e, cfg, c, d)
    ensures d in Next(w, e, cfg).t.conns
  {
    var f := b => Effect(w.t, e, cfg, b);
    match e
    case Usage(u, on, flag, update, now) =>
      var i := IndexOf(w.t.conns, u);
      if c.uid == u {
        SameUid(w.t.conns, c, w.t.conns[i]);
        assert Next(w, e, cfg).t.conns[i] == d;
      } else {
        var k :| 0 <= k < |w.t.conns| && w.t.conns[k] == c;
        assert Next(w, e, cfg).t.conns[k] == d;
      }
    case Drop(id, notify, now) => FlatMember(w.t.conns, b => DropOne(b, id, notify, cfg, now), d);
    case Timers(time, exiting) =>
      if w.t.cache.have && PassRuns(w.t, time) {
        FlatMember(w.t.conns, b => ScanOne(b, time, exiting), d);
      }
    case Find(_) =>
    case _ => FlatMember(w.t.conns, f, d);
  }

  /** The event leaves the timer of the entry alone: no use taken or given back, no drop, and no
      pass at which the timer is due. */
  predicate Leaves(e: Event, c: Conn) {
    match e
    case Usage(u, _, _, update, _) => u != c.uid || !update || c.removed
    case Drop(id, notify, _) => id != c.connId || (c.removed && notify)
    case Timers(time, exiting) => !exiting && time < c.timeout
    case _ => true
  }

  /** The same connection, released or not, with the same timer. */
  predicate Kept(c: Conn, d: Conn) {
    d.uid == c.uid && d.connId == c.connId && d.removed == c.removed && d.timeout == c.timeout
  }

  lemma StepLeaves(w: World, e: Event, cfg: Config, c: Conn) returns (d: Conn)
    requires Identified(w) && c in w.t.conns && c.timeout != 0 && Leaves(e, c)
    ensures d in Next(w, e, cfg).t.conns && Kept(c, d)
    ensures c.connId !in w.idle ==> c.connId !in Next(w, e, cfg).idle
  {
    assert |Effect(w.t, e, cfg, c)| == 1;
    d := Effect(w.t, e, cfg, c)[0];
    EffectIsNext(w, e, cfg, c, d);
    if e.Timers? && c.connId in ToDrop(w.t, e.time, e.exiting) {
      PutAsideIff(w.t, e.time, e.exiting, c.connId);
      var b :| b in w.t.conns && b.connId == c.connId && !b.removed && b.timeout != 0 && b.timeout <= e.time;
      SameUid(w.t.conns, b, c);
    }
  }

  lemma {:induction false} RunLeaves(w: World, es: seq<Event>, cfg: Config, c: Conn) returns (d: Conn)
    requires Identified(w) && c in w.t.conns && c.timeout != 0 && forall e :: e in es ==> Leaves(e, c)
    ensures d in After(w, es, cfg).t.conns && Kept(c, d)
    ensures c.connId !in w.idle ==> c.connId !in After(w, es, cfg).idle
    decreases |es|
  {
    hide Identified, Next;
    if es == [] {
      d := c;
    } else {
      assert es[0] in es;
      var m := StepLeaves(w, es[0], cfg, c);
      StepIdentified(w, es[0], cfg);
      forall e | e in es[1..] ensures Leaves(e, m) {
        assert e in es;
      }
      d := RunLeaves(Next(w, es[0], cfg), es[1..], cfg, m);
    }
  }

  /** A pass puts a connection aside exactly if it was already, or its idle timer is due: the
      cached minimum never hides one. */
  lemma AsideIff(w: World, time: nat, cfg: Config, c: Conn)
    requires Identified(w) && CacheHolds(w) && c in w.t.conns && !c.removed
    ensures c.connId in Next(w, Timers(time, false), cfg).idle
       <==> c.connId in w.idle || (c.timeout != 0 && c.timeout <= time)
  {
    PutAsideIff(w.t, time, false, c.connId);
    if c.connId in ToDrop(w.t, time, false) {
      var b :| b in w.t.conns && b.connId == c.connId && !b.removed && b.timeout != 0 && b.timeout <= time;
      SameUid(w.t.conns, b, c);
    }
  }

  lemma RunCovers(w: World, es: seq<Event>, cfg: Config)
    requires Identified(w) && CacheHolds(w)
    ensures Identified(After(w, es, cfg)) && CacheHolds(After(w, es, cfg))
  {
    OneEntryPerId(w, es, cfg);
    NoTimerIsForgotten(w, es, cfg);
  }

  /** An idle connection that is left alone is put aside by the first pass at or after its timer,
      and by none before, whatever happens to all the others. */
  lemma IdleLife(w: World, es: seq<Event>, cfg: Config, c: Conn, time: nat)
    requires Identified(w) && CacheHolds(w)
    requires c in w.t.conns && !c.removed && c.timeout != 0 && c.connId !in w.idle
    requires forall e :: e in es ==> Leaves(e, c)
    ensures c.connId !in After(w, es, cfg).idle
    ensures c.connId in Next(After(w, es, cfg), Timers(time, false), cfg).idle <==> c.timeout <= time
  {
    hide Next, Identified, CacheHolds;
    var d := RunLeaves(w, es, cfg, c);
    RunCovers(w, es, cfg);
    AsideIff(After(w, es, cfg), time, cfg, d);
  }

  /** A released connection stays in the list, blocking its id, until exactly the first pass at or
      after its timer. */
  lemma ReleasedLife(w: World, es: seq<Event>, cfg: Config, c: Conn, time: nat)
    requires Identified(w) && CacheHolds(w) && c in w.t.conns && c.removed
    requires forall e :: e in es ==> Leaves(e, c)
    ensures Has(After(w, es, cfg).t.conns, c.uid)
    ensures Has(Next(After(w, es, cfg), Timers(time, false), cfg).t.conns, c.uid) <==> time < c.timeout
  {
    assert Shaped(c);
    var w', e := After(w, es, cfg), Timers(time, false);
    var d := RunLeaves(w, es, cfg, c);
    RunCovers(w, es, cfg);
    hide After, Leaves;
    assert Waits(w'.t.cache, d.timeout) && (w'.t.cache.have <==> w'.t.cache.min != 0);
    if w'.t.cache.min <= time {
      PassOnEntry(w'.t, time, false, d);
    }
  }

  // ---- The timers that are started ----

  /** Giving back the last use starts the idle timer, unless it runs already; taking one stops it.
      A connection marked for SMS waits the longer interval. A released one is left alone. */
  lemma UseMovesTimer(c: Conn, on: bool, flag: Option<SmsFlag>, cfg: Config, now: nat)
    requires !c.removed && Shaped(c)
    ensures var d := Used(c, on, flag, true, cfg, now);
      var wait := if MtSms in d.extended || CmSms in d.extended || MoSms in d.extended then cfg.idleMtSmsMs
                  else cfg.idleMs;
      && Kept(c.(timeout := d.timeout), d)
      && (on ==> d.usage == c.usage + 1 && d.timeout == 0)
      && (!on && c.usage >= 2 ==> d.usage == c.usage - 1 && d.timeout == 0)
      && (!on && c.usage <= 1 ==> d.usage == 0)
      && (!on && c.usage <= 1 ==> d.timeout == if c.timeout != 0 then c.timeout else now + wait * 1000)
  {
    var marks := Flagged(c, on, flag).extended;
    if marks != {} {
      var f :| f in marks;
      assert f == MtSms || f == CmSms || f == MoSms;
    }
  }

  /** One change of a connection's usage. */
  datatype Use = Use(on: bool, flag: Option<SmsFlag>, update: bool, now: nat)

  function UsedAll(c: Conn, us: seq<Use>, cfg: Config): Conn {
    if us == [] then c
    else
      var n, u := |us| - 1, us[|us| - 1];
      Used(UsedAll(c, us[..n], cfg), u.on, u.flag, u.update, cfg, u.now)
  }

  predicate EndsCm(u: Use) {
    (u.flag == Some(CmSms) && !u.on) || (u.flag == Some(MoSms) && u.on)
  }

  /** Use k marked the connection for a CM service request, and no later one ended that. */
  ghost predicate CmSince(us: seq<Use>, k: int) {
    0 <= k < |us| && us[k].flag == Some(CmSms) && us[k].on && forall j :: k < j < |us| ==> !EndsCm(us[j])
  }

  /** A mark for mobile terminated SMS stays for good; one for a CM service request stays until
      that is taken back or the mobile's SMS begins. */
  lemma {:induction false} MarksIff(c: Conn, us: seq<Use>, cfg: Config)
    requires !c.removed && c.extended == {}
    ensures var d := UsedAll(c, us, cfg);
      && !d.removed && MoSms !in d.extended
      && (MtSms in d.extended <==> exists k :: 0 <= k < |us| && us[k].flag == Some(MtSms) && us[k].on)
      && (CmSms in d.extended <==> exists k :: CmSince(us, k))
    decreases |us|
  {
    if us != [] {
      var n, v, u := |us| - 1, us[..|us| - 1], us[|us| - 1];
      MarksIff(c, v, cfg);
      var b, d := UsedAll(c, v, cfg), UsedAll(c, us, cfg);
      assert d.extended == Flagged(b, u.on, u.flag).extended && d.removed == b.removed;
      hide UsedAll, Used;
      MtMark(v, u, us, MtSms in b.extended);
      CmMark(v, u, us, CmSms in b.extended);
    }
  }

  lemma MtMark(v: seq<Use>, u: Use, us: seq<Use>, before: bool)
    requires us == v + [u]
    requires before <==> exists k :: 0 <= k < |v| && v[k].flag == Some(MtSms) && v[k].on
    ensures (exists k :: 0 <= k < |us| && us[k].flag == Some(MtSms) && us[k].on)
       <==> before || (u.flag == Some(MtSms) && u.on)
  {
    if before {
      var k :| 0 <= k < |v| && v[k].flag == Some(MtSms) && v[k].on;
      assert us[k] == v[k];
    }
    assert us[|v|] == u;
  }

  lemma CmMark(v: seq<Use>, u: Use, us: seq<Use>, before: bool)
    requires us == v + [u] && (before <==> exists k :: CmSince(v, k))
    ensures (exists k :: CmSince(us, k)) <==> (u.flag == Some(CmSms) && u.on) || (before && !EndsCm(u))
  {
    assert us[|v|] == u;
    if u.flag == Some(CmSms) && u.on {
      assert CmSince(us, |v|);
    } else if before && !EndsCm(u) {
      var k :| CmSince(v, k);
      assert CmSince(us, k);
    }
    if k :| CmSince(us, k) && k < |v| {
      assert forall j :: k < j < |v| ==> v[j] == us[j];
      assert CmSince(v, k);
    }
  }

  /** Dropping an active connection the peer must still be told about releases it until now plus
      the release interval, unused and without authentication; in every other case of an entry of
      that id it is deleted at once, but for a released one that is dropped again. */
  lemma DropOnEntry(t: Table, connId: nat, notify: bool, cfg: Config, now: nat, c: Conn)
    requires Unique(t.conns) && c in t.conns
    ensures var cs := Dropped(t, connId, notify, cfg, now).conns;
      && (c.connId != connId ==> c in cs)
      && (c.connId == connId && c.removed ==> (c in cs <==> notify) && (Has(cs, c.uid) <==> notify))
      && (c.connId == connId && !c.removed ==> (Has(cs, c.uid) <==> notify && cfg.releaseMs > 0))
      && (c.connId == connId && !c.removed && notify && cfg.releaseMs > 0 ==>
            c.(removed := true, usage := 0, authTout := 0, timeout := now + cfg.releaseMs * 1000) in cs)
  {
    var f := d => DropOne(d, connId, notify, cfg, now);
    var cs := Dropped(t, connId, notify, cfg, now).conns;
    forall d | d in DropOne(c, connId, notify, cfg, now) ensures d in cs {
      FlatMember(t.conns, f, d);
    }
    forall d | d in cs && d.uid == c.uid ensures d in DropOne(c, connId, notify, cfg, now) {
      FlatMember(t.conns, f, d);
      var b :| b in t.conns && d in f(b);
      SameUid(t.conns, b, c);
    }
    if DropOne(c, connId, notify, cfg, now) != [] {
      assert DropOne(c, connId, notify, cfg, now)[0] in DropOne(c, connId, notify, cfg, now);
    }
  }
}
