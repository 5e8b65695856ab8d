/** The connection table of YBTSSignalling (ybts.cpp): the list of logical connections with its
    cached minimum timer. Everything here runs under the connections mutex. */
module ConnTable {
  datatype Option<+T> = None | Some(value: T)

  datatype SmsFlag = MoSms | MtSms | CmSms

  /** A connection. `uid` is the object's identity; a timer is 0 when it is not running. An
      entry with `removed` set has been released and waits to be deleted. */
  datatype Conn = Conn(uid: nat, connId: nat, removed: bool, ue: Option<nat>, timeout: nat, usage: nat,
                       extended: set<SmsFlag>, ssTout: nat, authTout: nat)

  datatype Config = Config(idleMs: nat, idleMtSmsMs: nat, releaseMs: nat)

  /** The cached minimum timer, 0 for none, and the flag read before the mutex is taken. */
  datatype Cache = Cache(have: bool, min: nat)

  datatype Table = Table(conns: seq<Conn>, cache: Cache)

  /** setConnToutCheckInternal. */
  function Check(k: Cache, tout: nat): Cache {
    if tout != 0 && (k.min == 0 || tout < k.min) then Cache(true, tout) else k
  }

  function IndexOf(conns: seq<Conn>, uid: nat): (n: nat)
    ensures n <= |conns| && (n < |conns| ==> conns[n].uid == uid)
    ensures n == |conns| ==> forall c :: c in conns ==> c.uid != uid
  {
    if conns == [] || conns[0].uid == uid then 0 else 1 + IndexOf(conns[1..], uid)
  }

  function NewConn(uid: nat, connId: nat): Conn {
    Conn(uid, connId, false, None, 0, 0, {}, 0, 0)
  }

  /** findConnInternal with `create`: a new entry only if the id has none, released or not. */
  function Created(t: Table, connId: nat, uid: nat): Table {
    if exists c :: c in t.conns && c.connId == connId then t
    else t.(conns := t.conns + [NewConn(uid, connId)])
  }

  function Flagged(c: Conn, on: bool, flag: Option<SmsFlag>): Conn {
    match flag
    case Some(MoSms) => if on then c.(extended := c.extended - {CmSms}) else c
    case Some(MtSms) => if on then c.(extended := c.extended + {MtSms}) else c
    case Some(CmSms) => c.(extended := if on then c.extended + {CmSms} else c.extended - {CmSms})
    case None => c
  }

  /** setConnUsageInternal on the connection itself. */
  function Used(c: Conn, on: bool, flag: Option<SmsFlag>, update: bool, cfg: Config, now: nat): Conn {
    if c.removed then c
    else
      var f := Flagged(c, on, flag);
      if !update then f
      else
        var usage := if on then f.usage + 1 else if f.usage > 0 then f.usage - 1 else 0;
        var timeout := if usage > 0 then 0
                       else if f.timeout != 0 then f.timeout
                       else now + (if f.extended == {} then cfg.idleMs else cfg.idleMtSmsMs) * 1000;
        f.(usage := usage, timeout := timeout)
  }

  function WithUsage(t: Table, uid: nat, on: bool, flag: Option<SmsFlag>, update: bool, cfg: Config, now: nat): Table {
    var i := IndexOf(t.conns, uid);
    if i == |t.conns| then t
    else
      var c, c' := t.conns[i], Used(t.conns[i], on, flag, update, cfg, now);
      Table(t.conns[i := c'], Check(t.cache, if c'.timeout != c.timeout then c'.timeout else 0))
  }

  /** The released form of an active connection, under dropConn with notification. */
  function Release(c: Conn, cfg: Config, now: nat): Conn {
    c.(removed := true, usage := 0, authTout := 0, timeout := now + cfg.releaseMs * 1000)
  }

  /** dropConn on one entry: the active entry of the id is released, or deleted when nobody is to
      be told; a released one is deleted when the peer itself reported the connection lost. */
  function DropOne(c: Conn, connId: nat, notify: bool, cfg: Config, now: nat): (r: seq<Conn>)
    ensures |r| <= 1
  {
    if c.connId != connId then [c]
    else if c.removed then (if notify then [c] else [])
    else if notify && cfg.releaseMs > 0 then [Release(c, cfg, now)]
    else []
  }

  /** What is left of a list when each entry becomes `f` of it: one entry or none. */
  function Flat(cs: seq<Conn>, f: Conn -> seq<Conn>): seq<Conn> {
    if cs == [] then [] else f(cs[0]) + Flat(cs[1..], f)
  }

  function DropAll(cs: seq<Conn>, connId: nat, notify: bool, cfg: Config, now: nat): seq<Conn> {
    Flat(cs, c => DropOne(c, connId, notify, cfg, now))
  }

  /** The release timer dropConn starts, 0 if it starts none. */
  function DropTimer(cs: seq<Conn>, connId: nat, notify: bool, cfg: Config, now: nat): nat {
    if notify && cfg.releaseMs > 0 && exists c :: c in cs && c.connId == connId && !c.removed
    then now + cfg.releaseMs * 1000 else 0
  }

  function Dropped(t: Table, connId: nat, notify: bool, cfg: Config, now: nat): Table {
    Table(DropAll(t.conns, connId, notify, cfg, now),
          Check(t.cache, DropTimer(t.conns, connId, notify, cfg, now)))
  }

  /** The active connections other than `uid` that hold the UE: connUeChanged drops them. */
  function Rivals(cs: seq<Conn>, uid: nat, ue: nat): set<nat> {
    set c | c in cs && c.uid != uid && c.ue == Some(ue) && !c.removed :: c.connId
  }

  // ---- The timer pass ----

  predicate Due(timer: nat, time: nat, exiting: bool) {
    timer != 0 && (exiting || timer <= time)
  }

  /** checkTimers on one entry: a released one goes when its time has come; an active one loses
      the sessions that timed out. */
  function ScanOne(c: Conn, time: nat, exiting: bool): (r: seq<Conn>)
    ensures |r| <= 1
  {
    if c.removed then (if exiting || c.timeout <= time then [] else [c])
    else [c.(ssTout := if Due(c.ssTout, time, exiting) then 0 else c.ssTout,
             authTout := if Due(c.authTout, time, false) then 0 else c.authTout)]
  }

  function ScanAll(cs: seq<Conn>, time: nat, exiting: bool): seq<Conn> {
    Flat(cs, c => ScanOne(c, time, exiting))
  }

  /** An active connection whose idle timer is due is put aside to be dropped afterwards. */
  predicate IdleDue(c: Conn, time: nat, exiting: bool) {
    !c.removed && Due(c.timeout, time, exiting)
  }

  function IdleIds(cs: seq<Conn>, time: nat, exiting: bool): seq<nat> {
    if cs == [] then []
    else (if IdleDue(cs[0], time, exiting) then [cs[0].connId] else []) + IdleIds(cs[1..], time, exiting)
  }

  /** A timer that is not due, 0 for one that is. */
  function Left(timer: nat, time: nat, exiting: bool): nat {
    if Due(timer, time, exiting) then 0 else timer
  }

  /** The pass looks again at every timer of an entry that stays pending. */
  function Seen(k: Cache, c: Conn, time: nat, exiting: bool): Cache {
    if c.removed then Check(k, if exiting || c.timeout <= time then 0 else c.timeout)
    else
      Check(Check(Check(k, Left(c.ssTout, time, exiting)), Left(c.authTout, time, false)),
            Left(c.timeout, time, exiting))
  }

  function CheckConns(k: Cache, cs: seq<Conn>, time: nat, exiting: bool): Cache
    decreases |cs|
  {
    if cs == [] then k else CheckConns(Seen(k, cs[0], time, exiting), cs[1..], time, exiting)
  }

  /** The pass runs only when the cached minimum has come. */
  predicate PassRuns(t: Table, time: nat) {
    t.cache.min != 0 && t.cache.min <= time
  }

  /** The locked part of checkTimers: the list after the pass with a fresh minimum. */
  function Scanned(t: Table, time: nat, exiting: bool): Table {
    if !t.cache.have then t
    else if PassRuns(t, time) then
      var k := CheckConns(t.cache.(min := 0), t.conns, time, exiting);
      Table(ScanAll(t.conns, time, exiting), Cache(k.min != 0, k.min))
    else t.(cache := Cache(t.cache.min != 0, t.cache.min))
  }

  function ToDrop(t: Table, time: nat, exiting: bool): seq<nat> {
    if t.cache.have && PassRuns(t, time) then IdleIds(t.conns, time, exiting) else []
  }

  // ---- One entry per id ----

  ghost predicate Distinct(c: Conn, d: Conn) {
    c.connId != d.connId && c.uid != d.uid
  }

  /** No two entries share an id or are the same object. */
  ghost predicate Unique(cs: seq<Conn>) {
    forall i, j :: 0 <= i < j < |cs| ==> Distinct(cs[i], cs[j])
  }

  /** Each entry becomes at most one, with the same id and identity. */
  ghost predicate KeepsIds(f: Conn -> seq<Conn>) {
    forall c :: |f(c)| <= 1 && (f(c) != [] ==> f(c)[0].uid == c.uid && f(c)[0].connId == c.connId)
  }

  lemma {:induction false} FlatMember(cs: seq<Conn>, f: Conn -> seq<Conn>, d: Conn)
    ensures d in Flat(cs, f) <==> exists c :: c in cs && d in f(c)
  {
    if cs != [] {
      FlatMember(cs[1..], f, d);
      assert cs == [cs[0]] + cs[1..];
      if d in f(cs[0]) {
        assert cs[0] in cs;
      }
    }
  }

  lemma {:induction false} FlatAppend(a: seq<Conn>, b: seq<Conn>, f: Conn -> seq<Conn>)
    ensures Flat(a + b, f) == Flat(a, f) + Flat(b, f)
  {
    if a == [] {
      assert a + b == b;
    } else {
      FlatAppend(a[1..], b, f);
      assert (a + b)[1..] == a[1..] + b;
      assert (a + b)[0] == a[0];
    }
  }

  lemma {:induction false} FlatUnique(cs: seq<Conn>, f: Conn -> seq<Conn>)
    requires KeepsIds(f) && Unique(cs)
    ensures Unique(Flat(cs, f))
  {
    if cs != [] {
      var head, rest := f(cs[0]), Flat(cs[1..], f);
      FlatUnique(cs[1..], f);
      forall d | d in rest
        ensures Distinct(cs[0], d)
      {
        FlatMember(cs[1..], f, d);
        var c :| c in cs[1..] && d in f(c);
        var k :| 0 <= k < |cs[1..]| && cs[1..][k] == c;
        assert cs[k + 1] == c;
      }
      if head != [] {
        assert head == [head[0]];
        forall i, j | 0 <= i < j < |head + rest|
          ensures Distinct((head + rest)[i], (head + rest)[j])
        {
          assert (head + rest)[j] == rest[j - 1] && rest[j - 1] in rest;
        }
      } else {
        assert head + rest == rest;
      }
    }
  }

  lemma DropKeepsUnique(cs: seq<Conn>, connId: nat, notify: bool, cfg: Config, now: nat)
    requires Unique(cs)
    ensures Unique(DropAll(cs, connId, notify, cfg, now))
  {
    FlatUnique(cs, c => DropOne(c, connId, notify, cfg, now));
  }

  lemma ScanKeepsUnique(cs: seq<Conn>, time: nat, exiting: bool)
    requires Unique(cs)
    ensures Unique(ScanAll(cs, time, exiting))
  {
    FlatUnique(cs, c => ScanOne(c, time, exiting));
  }
}
