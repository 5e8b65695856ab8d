/** The usage of a connection and the idle timeout that drops it, over runs (ybts.cpp). */
module IdleDrop {
  import opened ConnTable
  import opened ConnRuns

  /** How one event moves the usage count of an active connection. */
  function Bumped(n: nat, e: Event, uid: nat): nat {
    if !e.Usage? || e.uid != uid || !e.update then n
    else if e.on then n + 1
    else if n > 0 then n - 1 else 0
  }

  function Tally(n: nat, es: seq<Event>, uid: nat): nat
    decreases |es|
  {
    if es == [] then n else Tally(Bumped(n, es[0], uid), es[1..], uid)
  }

  /** The usage `uid` starts from: an object not yet in the list starts from nothing. */
  ghost predicate StartsFrom(w: World, uid: nat, n: nat) {
    if exists c :: c in w.t.conns && c.uid == uid
    then exists c :: c in w.t.conns && c.uid == uid && c.usage == n
    else n == 0
  }

  lemma EffectBumps(t: Table, e: Event, cfg: Config, c: Conn, d: Conn)
    requires IsEffect(t, e, cfg, c, d) && !d.removed
    ensures d.usage == Bumped(c.usage, e, c.uid)
  {
  }

  /** The usage of an active connection is exactly what its users took and gave back. */
  lemma {:induction false} UsageIsTallied(w: World, es: seq<Event>, cfg: Config, d: Conn, n: nat)
    requires Identified(w) && Runs(w, es, cfg) && d in After(w, es, cfg).t.conns && !d.removed
    requires StartsFrom(w, d.uid, n)
    ensures d.usage == Tally(n, es, d.uid)
    decreases |es|
  {
    if es == [] {
      var c :| c in w.t.conns && c.uid == d.uid && c.usage == n;
      SameUid(w.t.conns, c, d);
    } else {
      var w', n' := Next(w, es[0], cfg), Bumped(n, es[0], d.uid);
      StepIdentified(w, es[0], cfg);
      StepStarts(w, es, cfg, d, n);
      UsageIsTallied(w', es[1..], cfg, d, n');
    }
  }

  lemma StepStarts(w: World, es: seq<Event>, cfg: Config, d: Conn, n: nat)
    requires es != [] && Identified(w) && Enabled(w, es[0])
    requires d in After(w, es, cfg).t.conns && !d.removed && StartsFrom(w, d.uid, n)
    ensures StartsFrom(Next(w, es[0], cfg), d.uid, Bumped(n, es[0], d.uid))
  {
    var w' := Next(w, es[0], cfg);
    StepIdentified(w, es[0], cfg);
    if d.uid < w'.nextUid {
      EntriesAge(w', es[1..], cfg, d);
      var m :| m in w'.t.conns && Ages(m, d);
      var c := NextMember(w, es[0], cfg, m);
      if c in w.t.conns && IsEffect(w.t, es[0], cfg, c, m) {
        EffectAges(w.t, es[0], cfg, c, m);
        EffectBumps(w.t, es[0], cfg, c, m);
        var c0 :| c0 in w.t.conns && c0.uid == d.uid && c0.usage == n;
        SameUid(w.t.conns, c, c0);
      }
    }
  }

  lemma {:induction false} CollectedIsDue(cs: seq<Conn>, time: nat, connId: nat)
    requires connId in IdleIds(cs, time, false)
    ensures exists c :: c in cs && c.connId == connId && IdleDue(c, time, false)
  {
    assert cs == [cs[0]] + cs[1..];
    if connId in IdleIds(cs[1..], time, false) {
      CollectedIsDue(cs[1..], time, connId);
      var c :| c in cs[1..] && c.connId == connId && IdleDue(c, time, false);
      assert c in cs;
    } else {
      assert cs[0] in cs;
    }
  }

  /** A connection the pass put aside is not in use when it is put aside. */
  lemma CollectedIsUnused(w: World, time: nat, cfg: Config, m: Conn)
    requires Identified(w) && CacheHolds(w) && m in Next(w, Timers(time, false), cfg).t.conns
    requires m.connId in ToDrop(w.t, time, false)
    ensures m.usage == 0
  {
    var e := Timers(time, false);
    var c := NextMember(w, e, cfg, m);
    EffectAges(w.t, e, cfg, c, m);
    CollectedIsDue(w.t.conns, time, m.connId);
    var k :| k in w.t.conns && k.connId == m.connId && IdleDue(k, time, false);
    SameUid(w.t.conns, c, k);
    assert Shaped(k);
  }

  /** How often a use was taken, and given back, in a stretch of a run. */
  function Takes(es: seq<Event>, uid: nat): nat
    decreases |es|
  {
    if es == [] then 0
    else (if es[0].Usage? && es[0].uid == uid && es[0].update && es[0].on then 1 else 0) + Takes(es[1..], uid)
  }

  function Gives(es: seq<Event>, uid: nat): nat
    decreases |es|
  {
    if es == [] then 0
    else (if es[0].Usage? && es[0].uid == uid && es[0].update && !es[0].on then 1 else 0) + Gives(es[1..], uid)
  }

  /** More uses were taken than given back from some moment on. */
  ghost predicate Outstanding(es: seq<Event>, uid: nat) {
    exists k :: 0 <= k <= |es| && Takes(es[k..], uid) > Gives(es[k..], uid)
  }

  lemma NothingOutstanding(uid: nat)
    ensures !Outstanding([], uid)
  {
    var es: seq<Event> := [];
    assert es[0..] == [];
  }

  lemma OutstandingFirst(es: seq<Event>, uid: nat)
    requires es != []
    ensures Outstanding(es, uid) <==> Takes(es, uid) > Gives(es, uid) || Outstanding(es[1..], uid)
    ensures Takes(es[1..], uid) > Gives(es[1..], uid) ==> Outstanding(es[1..], uid)
  {
    assert es[0..] == es && es[1..][0..] == es[1..];
    if Outstanding(es, uid) {
      var k :| 0 <= k <= |es| && Takes(es[k..], uid) > Gives(es[k..], uid);
      if k > 0 {
        assert es[1..][k - 1..] == es[k..];
      }
    }
    if Outstanding(es[1..], uid) {
      var k :| 0 <= k <= |es| - 1 && Takes(es[1..][k..], uid) > Gives(es[1..][k..], uid);
      assert es[1..][k..] == es[k + 1..];
    }
  }

  /** A counter that stops at zero is above it at the end exactly if the uses it began with are not
      all given back, or more were taken than given back from some moment on. */
  lemma {:induction false} TallyIff(n: nat, es: seq<Event>, uid: nat)
    ensures Tally(n, es, uid) > 0 <==> n + Takes(es, uid) > Gives(es, uid) || Outstanding(es, uid)
    decreases |es|
  {
    if es == [] {
      NothingOutstanding(uid);
    } else {
      TallyIff(Bumped(n, es[0], uid), es[1..], uid);
      OutstandingFirst(es, uid);
      hide Outstanding;
    }
  }

  /** The pass drops what it put aside after it gave up the mutex. The connection it then hits is
      in use exactly if, from some moment since it was put aside, more uses were taken than given
      back; what was taken before does not count. */
  lemma IdleDropHitsUsedIff(w: World, time: nat, es: seq<Event>, cfg: Config, c: Conn)
    requires Identified(w) && CacheHolds(w) && c.connId in ToDrop(w.t, time, false) && !c.removed
    requires var w1 := Next(w, Timers(time, false), cfg); Runs(w1, es, cfg) && c in After(w1, es, cfg).t.conns
    ensures c.usage > 0 <==> Outstanding(es, c.uid)
  {
    TallyIff(0, es, c.uid);
    assert es[0..] == es;
    var w1 := Next(w, Timers(time, false), cfg);
    StepIdentified(w, Timers(time, false), cfg);
    assert StartsFrom(w1, c.uid, 0) by {
      if exists m :: m in w1.t.conns && m.uid == c.uid {
        EntriesAge(w1, es, cfg, c);
        var m :| m in w1.t.conns && Ages(m, c);
        CollectedIsUnused(w, time, cfg, m);
      }
    }
    UsageIsTallied(w1, es, cfg, c, 0);
  }

  /** In particular it is spared if nobody took a use of it in between. */
  lemma {:induction false} UntouchedIsSpared(es: seq<Event>, uid: nat)
    requires forall e :: e in es ==> !(e.Usage? && e.uid == uid && e.update && e.on)
    ensures !Outstanding(es, uid) && Takes(es, uid) == 0
    decreases |es|
  {
    if es == [] {
      NothingOutstanding(uid);
    } else {
      assert es[0] in es;
      UntouchedIsSpared(es[1..], uid);
      OutstandingFirst(es, uid);
    }
  }

  /** One connection in an otherwise idle system. */
  ghost function Single(c: Conn, k: Cache, idle: set<nat>): World {
    World(Table([c], k), 1, idle, {}, map[], {})
  }

  lemma SingleUsed(c: Conn, k: Cache, idle: set<nat>, on: bool, now: nat, cfg: Config)
    requires c.uid == 0
    ensures var d := Used(c, on, None, true, cfg, now);
      Next(Single(c, k, idle), Usage(0, on, None, true, now), cfg)
        == Single(d, Check(k, if d.timeout != c.timeout then d.timeout else 0), idle)
  {
  }

  lemma SinglePass(c: Conn, time: nat, cfg: Config)
    requires !c.removed && c.ssTout == 0 && c.authTout == 0 && 0 < c.timeout <= time
    ensures Next(Single(c, Cache(true, c.timeout), {}), Timers(time, false), cfg)
         == Single(c, Cache(false, 0), {c.connId})
  {
    var t := Table([c], Cache(true, c.timeout));
    assert [c][1..] == [];
    assert ScanAll([c], time, false) == ScanOne(c, time, false) + Flat([], d => ScanOne(d, time, false));
    assert CheckConns(Cache(true, 0), [c], time, false)
        == CheckConns(Seen(Cache(true, 0), c, time, false), [], time, false);
    assert IdleIds([c], time, false) == [c.connId];
    assert Scanned(t, time, false) == Table([c], Cache(false, 0));
  }

  lemma SingleDropped(c: Conn, k: Cache, idle: set<nat>, now: nat, cfg: Config)
    requires !c.removed && cfg.releaseMs > 0
    ensures Next(Single(c, k, idle), Drop(c.connId, true, now), cfg).t.conns == [Release(c, cfg, now)]
  {
    assert [c][1..] == [];
    assert DropAll([c], c.connId, true, cfg, now)
        == DropOne(c, c.connId, true, cfg, now) + Flat([], d => DropOne(d, c.connId, true, cfg, now));
  }

  lemma FirstStep(w: World, e: Event, es: seq<Event>, cfg: Config)
    requires Enabled(w, e)
    ensures After(w, [e] + es, cfg) == After(Next(w, e, cfg), es, cfg)
    ensures Runs(Next(w, e, cfg), es, cfg) ==> Runs(w, [e] + es, cfg)
  {
    assert ([e] + es)[1..] == es;
  }

  /** And it can be hit: a use taken between the pass and its drop is lost with the connection. */
  lemma UsedConnectionIsDropped()
    ensures var cfg := Config(1, 1, 1);
      var es := [Find(1)] + ([Usage(0, true, None, true, 0)] + ([Usage(0, false, None, true, 5)]
        + ([Timers(2000, false)] + ([Usage(0, true, None, true, 2001)] + []))));
      var w := After(Start(), es, cfg);
      && Runs(Start(), es, cfg) && w.idle == {1} && w.t.conns == [NewConn(0, 1).(usage := 1)]
      && Next(w, Drop(1, true, 2002), cfg).t.conns == [Release(NewConn(0, 1), cfg, 2002)]
  {
    var cfg, c := Config(1, 1, 1), NewConn(0, 1);
    var idle, none := c.(timeout := 1005), Cache(false, 0);
    assert Next(Start(), Find(1), cfg) == Single(c, none, {});
    SingleUsed(c, none, {}, true, 0, cfg);
    SingleUsed(c.(usage := 1), none, {}, false, 5, cfg);
    SinglePass(idle, 2000, cfg);
    SingleUsed(idle, none, {1}, true, 2001, cfg);
    SingleDropped(c.(usage := 1), none, {1}, 2002, cfg);
    assert Used(c.(usage := 1), false, None, true, cfg, 5) == idle;
    assert Used(c, true, None, true, cfg, 0) == c.(usage := 1);
    assert Used(idle, true, None, true, cfg, 2001) == c.(usage := 1);
    assert Check(none, 0) == none && Check(none, 1005) == Cache(true, 1005);
    hide Next, Used, Release, Check, NewConn;
    var e5 := [Usage(0, true, None, true, 2001)] + [];
    var e4 := [Timers(2000, false)] + e5;
    var e3 := [Usage(0, false, None, true, 5)] + e4;
    var e2 := [Usage(0, true, None, true, 0)] + e3;
    FirstStep(Start(), Find(1), e2, cfg);
    FirstStep(Single(c, none, {}), Usage(0, true, None, true, 0), e3, cfg);
    FirstStep(Single(c.(usage := 1), none, {}), Usage(0, false, None, true, 5), e4, cfg);
    FirstStep(Single(idle, Cache(true, 1005), {}), Timers(2000, false), e5, cfg);
    FirstStep(Single(idle, none, {1}), Usage(0, true, None, true, 2001), [], cfg);
  }
}
