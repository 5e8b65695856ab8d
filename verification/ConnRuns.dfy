/** Runs of the connection table: every thread's critical section is one step, in any order. */
module ConnRuns {
  import opened ConnTable

  /** The table with what the threads still have to do outside the mutex: ids a timer pass put
      aside to drop, SS timers set on a connection but not announced yet, connections whose UE
      was set but whose rivals were not looked for yet, and rivals still to drop. */
  datatype World = World(t: Table, nextUid: nat, idle: set<nat>, checks: set<nat>,
                         scans: map<nat, nat>, ueDrops: set<nat>)

  datatype Event =
    | Find(connId: nat)
    | Usage(uid: nat, on: bool, flag: Option<SmsFlag>, update: bool, now: nat)
    | StartAuth(uid: nat, tout: nat)
    | EndAuth(uid: nat)
    | SetSS(uid: nat, tout: nat)
    | Announce(tout: nat)
    | EndSS(uid: nat)
    | Drop(connId: nat, notify: bool, now: nat)
    | Timers(time: nat, exiting: bool)
    | AssignUe(uid: nat, ue: nat)
    | CollectUe(uid: nat)

  function Start(): World { World(Table([], Cache(false, 0)), 0, {}, {}, map[], {}) }

  /** A thread can only name a connection that was created. */
  predicate Enabled(w: World, e: Event) {
    match e
    case Find(_) => true
    case Announce(_) => true
    case Drop(_, _, _) => true
    case Timers(_, _) => true
    case _ => e.uid < w.nextUid
  }

  /** What an event makes of one entry. */
  function Effect(t: Table, e: Event, cfg: Config, c: Conn): (r: seq<Conn>)
    ensures |r| <= 1 && (r != [] ==> r[0].uid == c.uid && r[0].connId == c.connId)
  {
    match e
    case Usage(u, on, flag, update, now) => [if c.uid == u then Used(c, on, flag, update, cfg, now) else c]
    case StartAuth(u, tout) => [if c.uid == u && !c.removed && c.authTout == 0 then c.(authTout := tout) else c]
    case EndAuth(u) => [if c.uid == u then c.(authTout := 0) else c]
    case SetSS(u, tout) => [if c.uid == u && c.ssTout == 0 then c.(ssTout := tout) else c]
    case EndSS(u) => [if c.uid == u then c.(ssTout := 0) else c]
    case Drop(id, notify, now) => DropOne(c, id, notify, cfg, now)
    case Timers(time, exiting) => if t.cache.have && PassRuns(t, time) then ScanOne(c, time, exiting) else [c]
    case AssignUe(u, ue) => [if c.uid == u && c.ue.None? then c.(ue := Some(ue)) else c]
    case _ => [c]
  }

  /** The timers an event starts under the mutex are checked there, an SS timer when announced. */
  function Cached(t: Table, e: Event, cfg: Config): Cache {
    match e
    case Usage(u, on, flag, update, now) => WithUsage(t, u, on, flag, update, cfg, now).cache
    case StartAuth(u, tout) =>
      if exists c :: c in t.conns && c.uid == u && !c.removed && c.authTout == 0 then Check(t.cache, tout) else t.cache
    case Announce(tout) => Check(t.cache, tout)
    case Drop(id, notify, now) => Dropped(t, id, notify, cfg, now).cache
    case Timers(time, exiting) => Scanned(t, time, exiting).cache
    case _ => t.cache
  }

  function Changed(t: Table, e: Event, cfg: Config): seq<Conn> {
    match e
    case Usage(u, on, flag, update, now) => WithUsage(t, u, on, flag, update, cfg, now).conns
    case Drop(id, notify, now) => Dropped(t, id, notify, cfg, now).conns
    case Timers(time, exiting) => Scanned(t, time, exiting).conns
    case _ => Flat(t.conns, c => Effect(t, e, cfg, c))
  }

  ghost predicate UeIsNew(t: Table, uid: nat) {
    exists c :: c in t.conns && c.uid == uid && c.ue.None?
  }

  ghost function Next(w: World, e: Event, cfg: Config): World {
    var t := Table(Changed(w.t, e, cfg), Cached(w.t, e, cfg));
    match e
    case Find(id) => w.(t := Created(w.t, id, w.nextUid), nextUid := w.nextUid + 1)
    case SetSS(_, tout) => w.(t := t, checks := w.checks + {tout})
    case Announce(tout) => w.(t := t, checks := w.checks - {tout})
    case Drop(id, _, _) => w.(t := t, idle := w.idle - {id}, ueDrops := w.ueDrops - {id})
    case Timers(time, exiting) => w.(t := t, idle := w.idle + set id | id in ToDrop(w.t, time, exiting))
    case AssignUe(u, ue) => w.(t := t, scans := if UeIsNew(w.t, u) then w.scans[u := ue] else w.scans)
    case CollectUe(u) =>
      if u in w.scans then
        w.(t := t, scans := w.scans - {u}, ueDrops := w.ueDrops + Rivals(w.t.conns, u, w.scans[u]))
      else w.(t := t)
    case _ => w.(t := t)
  }

  ghost predicate Runs(w: World, es: seq<Event>, cfg: Config)
    decreases |es|
  {
    es == [] || (Enabled(w, es[0]) && Runs(Next(w, es[0], cfg), es[1..], cfg))
  }

  ghost function After(w: World, es: seq<Event>, cfg: Config): World
    decreases |es|
  {
    if es == [] then w else After(Next(w, es[0], cfg), es[1..], cfg)
  }

  // ---- Where the entries of the next table come from ----

  ghost predicate IsEffect(t: Table, e: Event, cfg: Config, c: Conn, d: Conn) {
    d in Effect(t, e, cfg, c)
  }

  lemma UsageChanges(t: Table, e: Event, cfg: Config, d: Conn)
    requires Unique(t.conns) && e.Usage? && d in Changed(t, e, cfg)
    ensures exists c :: c in t.conns && IsEffect(t, e, cfg, c, d)
    ensures Unique(Changed(t, e, cfg))
  {
    hide Used;
    var i := IndexOf(t.conns, e.uid);
    var cs := Changed(t, e, cfg);
    var j :| 0 <= j < |cs| && cs[j] == d;
    assert j != i && i < |cs| ==> Distinct(t.conns[i], t.conns[j]) || Distinct(t.conns[j], t.conns[i]);
    assert IsEffect(t, e, cfg, t.conns[j], d);
    if i < |cs| {
      forall m, n | 0 <= m < n < |cs|
        ensures Distinct(cs[m], cs[n])
      {
        assert Distinct(t.conns[m], t.conns[n]);
        assert cs[i] in Effect(t, e, cfg, t.conns[i]);
      }
    }
  }

  lemma FlatChanges(t: Table, e: Event, cfg: Config, d: Conn)
    requires !e.Usage?
    ensures d in Changed(t, e, cfg) ==> exists c :: c in t.conns && IsEffect(t, e, cfg, c, d)
    ensures Unique(t.conns) ==> Unique(Changed(t, e, cfg))
  {
    var f := c => Effect(t, e, cfg, c);
    if e.Drop? {
      f := c => DropOne(c, e.connId, e.notify, cfg, e.now);
    } else if e.Timers? && t.cache.have && PassRuns(t, e.time) {
      f := c => ScanOne(c, e.time, e.exiting);
    }
    if Unique(t.conns) { FlatUnique(t.conns, f); }
    if d in Changed(t, e, cfg) {
      if e.Timers? && !(t.cache.have && PassRuns(t, e.time)) {
        assert IsEffect(t, e, cfg, d, d);
      } else {
        FlatMember(t.conns, f, d);
        var c :| c in t.conns && d in f(c);
        assert IsEffect(t, e, cfg, c, d);
      }
    }
  }

  /** An entry of the next table was there before and underwent the event, or was just created. */
  lemma NextMember(w: World, e: Event, cfg: Config, d: Conn) returns (c: Conn)
    requires Unique(w.t.conns) && d in Next(w, e, cfg).t.conns
    ensures if e.Find? && d.uid == w.nextUid && d !in w.t.conns then d == NewConn(w.nextUid, e.connId)
            else c in w.t.conns && IsEffect(w.t, e, cfg, c, d)
  {
    c := d;
    if e.Find? {
      assert d !in w.t.conns ==> d == NewConn(w.nextUid, e.connId);
    } else if e.Usage? {
      UsageChanges(w.t, e, cfg, d);
      c :| c in w.t.conns && IsEffect(w.t, e, cfg, c, d);
    } else {
      FlatChanges(w.t, e, cfg, d);
      c :| c in w.t.conns && IsEffect(w.t, e, cfg, c, d);
    }
  }

  // ---- One entry per id ----

  ghost predicate Identified(w: World) {
    Unique(w.t.conns) && forall c :: c in w.t.conns ==> c.uid < w.nextUid
  }

  lemma StepIdentified(w: World, e: Event, cfg: Config)
    requires Identified(w)
    ensures Identified(Next(w, e, cfg))
  {
    hide Effect, Unique;
    var n := Next(w, e, cfg);
    forall d | d in n.t.conns
      ensures d.uid < n.nextUid
    {
      var c := NextMember(w, e, cfg, d);
    }
    NextUnique(w, e, cfg);
  }

  lemma NextUnique(w: World, e: Event, cfg: Config)
    requires Identified(w)
    ensures Unique(Next(w, e, cfg).t.conns)
  {
    var n := Next(w, e, cfg);
    if e.Find? {
      forall i, j | 0 <= i < j < |n.t.conns|
        ensures Distinct(n.t.conns[i], n.t.conns[j])
      {
        assert i < |w.t.conns| && w.t.conns[i] in w.t.conns;
        assert j < |w.t.conns| ==> Distinct(w.t.conns[i], w.t.conns[j]);
      }
    } else if e.Usage? {
      if n.t.conns != [] {
        UsageChanges(w.t, e, cfg, n.t.conns[0]);
      }
    } else {
      FlatChanges(w.t, e, cfg, NewConn(0, 0));
    }
  }

  /** Over every run an id, and an object, is in the list at most once. */
  lemma {:induction false} OneEntryPerId(w: World, es: seq<Event>, cfg: Config)
    requires Identified(w)
    ensures Identified(After(w, es, cfg)) && w.nextUid <= After(w, es, cfg).nextUid
    decreases |es|
  {
    hide Identified;
    if es != [] {
      StepIdentified(w, es[0], cfg);
      OneEntryPerId(Next(w, es[0], cfg), es[1..], cfg);
    }
  }

  // ---- The life of an entry ----

  /** What never changes back: the id, the release, the UE once set. */
  ghost predicate Ages(c: Conn, d: Conn) {
    d.uid == c.uid && d.connId == c.connId && (c.removed ==> d.removed) && (c.ue.Some? ==> d.ue == c.ue)
  }

  lemma EffectAges(t: Table, e: Event, cfg: Config, c: Conn, d: Conn)
    requires IsEffect(t, e, cfg, c, d)
    ensures Ages(c, d)
  {
  }

  lemma SameUid(cs: seq<Conn>, c: Conn, d: Conn)
    requires Unique(cs) && c in cs && d in cs
    ensures c.uid == d.uid || c.connId == d.connId ==> c == d
  {
    var i :| 0 <= i < |cs| && cs[i] == c;
    var j :| 0 <= j < |cs| && cs[j] == d;
    if i < j { assert Distinct(cs[i], cs[j]); }
    if j < i { assert Distinct(cs[j], cs[i]); }
  }

  /** An entry found after a run whose object existed before it was in the list all along; it has
      kept its id and, once set, its UE, and if it was released it still is. */
  lemma {:induction false} EntriesAge(w: World, es: seq<Event>, cfg: Config, d: Conn)
    requires Identified(w) && d in After(w, es, cfg).t.conns && d.uid < w.nextUid
    ensures exists c :: c in w.t.conns && Ages(c, d)
    decreases |es|
  {
    hide Identified, Next, Effect;
    if es == [] {
      assert Ages(d, d);
    } else {
      var n := Next(w, es[0], cfg);
      StepIdentified(w, es[0], cfg);
      assert w.nextUid <= n.nextUid by { OneEntryPerId(w, [es[0]], cfg); assert After(n, [], cfg) == n; }
      EntriesAge(n, es[1..], cfg, d);
      var m :| m in n.t.conns && Ages(m, d);
      assert Unique(w.t.conns) by { UniqueOf(w); }
      var c := NextMember(w, es[0], cfg, m);
      if c in w.t.conns && IsEffect(w.t, es[0], cfg, c, m) {
        EffectAges(w.t, es[0], cfg, c, m);
        assert Ages(c, d);
      }
    }
  }

  lemma UniqueOf(w: World)
    requires Identified(w)
    ensures Unique(w.t.conns)
  {
  }

  /** A released connection blocks its id: as long as its entry is in the list, the list holds no
      other entry of the id, so none is active and none can be created. */
  lemma ReleasedIdIsNotRecreated(w: World, es: seq<Event>, cfg: Config, c: Conn, d: Conn, d': Conn)
    requires Identified(w) && c in w.t.conns && c.removed
    requires d in After(w, es, cfg).t.conns && d.uid == c.uid
    requires d' in After(w, es, cfg).t.conns && d'.connId == c.connId
    ensures d' == d && d.removed
    ensures Created(After(w, es, cfg).t, c.connId, After(w, es, cfg).nextUid) == After(w, es, cfg).t
  {
    OneEntryPerId(w, es, cfg);
    EntriesAge(w, es, cfg, d);
    var c0 :| c0 in w.t.conns && Ages(c0, d);
    SameUid(w.t.conns, c, c0);
    SameUid(After(w, es, cfg).t.conns, d, d');
  }

  // ---- The cached minimum ----

  /** The signalling thread will look at a timer in time. */
  predicate Waits(k: Cache, timer: nat) {
    k.min != 0 && k.min <= timer
  }

  /** Every timer that runs on an entry is waited for, but for the two kinds a thread still has
      in hand: an idle connection put aside to be dropped, an SS timer about to be announced. */
  ghost predicate Covered(k: Cache, idle: set<nat>, checks: set<nat>, c: Conn) {
    && (c.timeout != 0 ==> Waits(k, c.timeout) || (!c.removed && c.connId in idle))
    && (!c.removed && c.ssTout != 0 ==> Waits(k, c.ssTout) || c.ssTout in checks)
    && (!c.removed && c.authTout != 0 ==> Waits(k, c.authTout))
  }

  /** A released entry has its release timer, and only an unused connection an idle timer. */
  predicate Shaped(c: Conn) {
    if c.removed then c.timeout != 0 else c.timeout != 0 ==> c.usage == 0
  }

  ghost predicate CacheHolds(w: World) {
    && (w.t.cache.have <==> w.t.cache.min != 0)
    && forall c :: c in w.t.conns ==> Shaped(c) && Covered(w.t.cache, w.idle, w.checks, c)
  }

  /** `k'` waits for all that `k` waited for. */
  ghost predicate Keeps(k: Cache, k': Cache) {
    k.min != 0 ==> k'.min != 0 && k'.min <= k.min
  }

  lemma {:induction false} PassCovers(k: Cache, cs: seq<Conn>, time: nat, exiting: bool, c: Conn, d: Conn)
    ensures Keeps(k, CheckConns(k, cs, time, exiting))
    ensures c in cs && d in ScanOne(c, time, exiting)
        ==> Covered(CheckConns(k, cs, time, exiting), if IdleDue(c, time, exiting) then {c.connId} else {}, {}, d)
    decreases |cs|
  {
    if cs != [] {
      var k' := Seen(k, cs[0], time, exiting);
      PassCovers(k', cs[1..], time, exiting, c, d);
      assert cs == [cs[0]] + cs[1..];
    }
  }

  /** An event outside the pass only lowers the minimum. */
  lemma CachedKeeps(t: Table, e: Event, cfg: Config)
    requires !e.Timers?
    ensures Keeps(t.cache, Cached(t, e, cfg))
    ensures (t.cache.have <==> t.cache.min != 0) ==> (Cached(t, e, cfg).have <==> Cached(t, e, cfg).min != 0)
  {
  }

  /** A timer an event starts is waited for at once, or its announcement is due. */
  lemma StartedIsCovered(w: World, e: Event, cfg: Config, c: Conn, d: Conn)
    requires CacheHolds(w) && c in w.t.conns && IsEffect(w.t, e, cfg, c, d)
    requires !e.Timers? && !e.Find? && !e.Drop? && !e.Usage?
    ensures var n := Next(w, e, cfg); Shaped(d) && Covered(n.t.cache, n.idle, n.checks, d)
  {
    CachedKeeps(w.t, e, cfg);
  }

  lemma UsedIsCovered(w: World, e: Event, cfg: Config, c: Conn, d: Conn)
    requires Unique(w.t.conns) && CacheHolds(w) && c in w.t.conns && IsEffect(w.t, e, cfg, c, d)
    requires e.Usage?
    ensures var n := Next(w, e, cfg); Shaped(d) && Covered(n.t.cache, n.idle, n.checks, d)
  {
    CachedKeeps(w.t, e, cfg);
    if c.uid == e.uid {
      var i := IndexOf(w.t.conns, e.uid);
      assert w.t.conns[i] in w.t.conns;
      SameUid(w.t.conns, c, w.t.conns[i]);
    }
  }

  lemma ReleasedIsCovered(w: World, e: Event, cfg: Config, c: Conn, d: Conn)
    requires CacheHolds(w) && c in w.t.conns && e.Drop? && IsEffect(w.t, e, cfg, c, d)
    ensures var n := Next(w, e, cfg); Shaped(d) && Covered(n.t.cache, n.idle, n.checks, d)
  {
    CachedKeeps(w.t, e, cfg);
  }

  lemma PassHolds(w: World, e: Event, cfg: Config, c: Conn, d: Conn)
    requires CacheHolds(w) && c in w.t.conns && e.Timers? && IsEffect(w.t, e, cfg, c, d)
    ensures var n := Next(w, e, cfg); Shaped(d) && Covered(n.t.cache, n.idle, n.checks, d)
  {
    if PassRuns(w.t, e.time) {
      PassCovers(w.t.cache.(min := 0), w.t.conns, e.time, e.exiting, c, d);
      IdleIdsAre(w.t.conns, e.time, e.exiting, c);
    }
  }

  lemma {:induction false} IdleIdsAre(cs: seq<Conn>, time: nat, exiting: bool, c: Conn)
    ensures c in cs && IdleDue(c, time, exiting) ==> c.connId in IdleIds(cs, time, exiting)
  {
    if cs != [] {
      IdleIdsAre(cs[1..], time, exiting, c);
      assert cs == [cs[0]] + cs[1..];
    }
  }

  lemma StepCache(w: World, e: Event, cfg: Config)
    requires Identified(w) && CacheHolds(w)
    ensures CacheHolds(Next(w, e, cfg))
  {
    var n := Next(w, e, cfg);
    assert n.t.cache.have <==> n.t.cache.min != 0 by {
      if !e.Timers? { CachedKeeps(w.t, e, cfg); }
    }
    forall d | d in n.t.conns
      ensures Shaped(d) && Covered(n.t.cache, n.idle, n.checks, d)
    {
      var c := NextMember(w, e, cfg, d);
      hide Next, Effect, Covered, Shaped;
      if c in w.t.conns && IsEffect(w.t, e, cfg, c, d) {
        if e.Timers? {
          PassHolds(w, e, cfg, c, d);
        } else if e.Drop? {
          ReleasedIsCovered(w, e, cfg, c, d);
        } else if e.Usage? {
          UsedIsCovered(w, e, cfg, c, d);
        } else if !e.Find? {
          StartedIsCovered(w, e, cfg, c, d);
        }
      }
    }
  }

  /** Over every run no timer is forgotten: the flag says exactly whether there is a minimum, and
      each running timer is at or after it, or in the hands of the thread that will deal with it. */
  lemma {:induction false} NoTimerIsForgotten(w: World, es: seq<Event>, cfg: Config)
    requires Identified(w) && CacheHolds(w)
    ensures CacheHolds(After(w, es, cfg))
    decreases |es|
  {
    hide CacheHolds;
    if es != [] {
      StepIdentified(w, es[0], cfg);
      StepCache(w, es[0], cfg);
      NoTimerIsForgotten(Next(w, es[0], cfg), es[1..], cfg);
    }
  }

  /** Nothing of an entry is due at `time`, but for what is still in hand. */
  ghost predicate Served(w: World, time: nat, c: Conn) {
    if c.removed then time < c.timeout
    else
      && (c.timeout == 0 || time < c.timeout || c.connId in w.idle)
      && (c.ssTout == 0 || time < c.ssTout || c.ssTout in w.checks)
      && (c.authTout == 0 || time < c.authTout)
  }

  /** After a pass, even one that the cached minimum cut short, no timer due is left. */
  lemma PassServesAll(w: World, time: nat, cfg: Config, d: Conn)
    requires Identified(w) && CacheHolds(w) && d in Next(w, Timers(time, false), cfg).t.conns
    ensures Served(Next(w, Timers(time, false), cfg), time, d)
  {
    var e := Timers(time, false);
    var c := NextMember(w, e, cfg, d);
    if PassRuns(w.t, time) {
      IdleIdsAre(w.t.conns, time, false, c);
    }
  }

  /** When every thread is done with what it had in hand, the minimum covers every timer. */
  lemma MinimumIsExact(es: seq<Event>, cfg: Config, c: Conn, timer: nat)
    requires var w := After(Start(), es, cfg); c in w.t.conns && w.idle == {} && w.checks == {}
    requires timer != 0
    requires timer == c.timeout || (!c.removed && (timer == c.ssTout || timer == c.authTout))
    ensures var w := After(Start(), es, cfg); w.t.cache.have && Waits(w.t.cache, timer)
  {
    NoTimerIsForgotten(Start(), es, cfg);
  }
}
