/** The mutex-protected methods of YBTSSignalling over its connection list (ybts.cpp). */
module Signalling {
  import opened ConnTable

  lemma {:induction false} CheckConnsAppend(k: Cache, cs: seq<Conn>, c: Conn, time: nat, exiting: bool)
    ensures CheckConns(k, cs + [c], time, exiting) == Seen(CheckConns(k, cs, time, exiting), c, time, exiting)
    decreases |cs|
  {
    if cs == [] {
      assert cs + [c] == [c] && [c][1..] == [];
    } else {
      CheckConnsAppend(Seen(k, cs[0], time, exiting), cs[1..], c, time, exiting);
      assert (cs + [c])[1..] == cs[1..] + [c];
    }
  }

  lemma {:induction false} IdleIdsAppend(cs: seq<Conn>, c: Conn, time: nat, exiting: bool)
    ensures IdleIds(cs + [c], time, exiting)
         == IdleIds(cs, time, exiting) + (if IdleDue(c, time, exiting) then [c.connId] else [])
  {
    hide IdleDue;
    if cs == [] {
      assert cs + [c] == [c] && [c][1..] == [];
    } else {
      IdleIdsAppend(cs[1..], c, time, exiting);
      assert (cs + [c])[1..] == cs[1..] + [c];
    }
  }

  /** One more entry seen by the pass. */
  lemma PassStep(k: Cache, was: seq<Conn>, n: nat, time: nat, exiting: bool)
    requires n < |was|
    ensures CheckConns(k, was[..n + 1], time, exiting)
         == Seen(CheckConns(k, was[..n], time, exiting), was[n], time, exiting)
    ensures IdleIds(was[..n + 1], time, exiting)
         == IdleIds(was[..n], time, exiting) + (if IdleDue(was[n], time, exiting) then [was[n].connId] else [])
  {
    assert was[..n + 1] == was[..n] + [was[n]];
    CheckConnsAppend(k, was[..n], was[n], time, exiting);
    IdleIdsAppend(was[..n], was[n], time, exiting);
  }

  /** Nothing is dropped from a list that holds no entry of the id. */
  lemma {:induction false} DropElsewhere(cs: seq<Conn>, connId: nat, notify: bool, cfg: Config, now: nat)
    requires forall c :: c in cs ==> c.connId != connId
    ensures DropAll(cs, connId, notify, cfg, now) == cs
  {
    if cs != [] {
      assert cs[0] in cs;
      DropElsewhere(cs[1..], connId, notify, cfg, now);
      assert cs == [cs[0]] + cs[1..];
    }
  }

  ghost predicate Has(cs: seq<Conn>, connId: nat, removed: bool) {
    exists c :: c in cs && c.connId == connId && c.removed == removed
  }

  lemma HasUpTo(was: seq<Conn>, k: nat, connId: nat)
    requires k < |was|
    ensures Has(was[..k + 1], connId, false)
        <==> Has(was[..k], connId, false) || (was[k].connId == connId && !was[k].removed)
    ensures was[k].connId == connId && !was[k].removed ==> Has(was, connId, false)
  {
    assert was[..k + 1] == was[..k] + [was[k]];
    assert was[k] in was;
  }

  /** findConnInternal gives nothing: no active entry, and either a released one the caller did
      not ask for, or none at all without leave to create it. */
  ghost predicate Missing(cs: seq<Conn>, connId: nat, create: bool, removed: bool) {
    !Has(cs, connId, false) && (if Has(cs, connId, true) then !removed else !create)
  }

  /** An entry's effect on a list is local to it. */
  lemma DropSteps(was: seq<Conn>, k: nat, connId: nat, notify: bool, cfg: Config, now: nat)
    requires k < |was|
    ensures DropAll(was[..k + 1], connId, notify, cfg, now)
         == DropAll(was[..k], connId, notify, cfg, now) + DropOne(was[k], connId, notify, cfg, now)
    ensures DropAll(was, connId, notify, cfg, now)
         == DropAll(was[..k + 1], connId, notify, cfg, now) + DropAll(was[k + 1..], connId, notify, cfg, now)
  {
    var f := c => DropOne(c, connId, notify, cfg, now);
    assert was[..k + 1] == was[..k] + [was[k]] && was == was[..k + 1] + was[k + 1..];
    FlatAppend(was[..k], [was[k]], f);
    FlatAppend(was[..k + 1], was[k + 1..], f);
    assert Flat([was[k]], f) == f(was[k]) + Flat([], f);
  }

  /** The list inside dropConn: the first `k` entries handled, the others as they were. */
  ghost function DropFront(was: seq<Conn>, k: nat, connId: nat, notify: bool, cfg: Config, now: nat): seq<Conn>
    requires k <= |was|
  {
    DropAll(was[..k], connId, notify, cfg, now) + was[k..]
  }

  /** Taking out or replacing the entry at hand is one step of the traversal. */
  lemma DropStep(was: seq<Conn>, k: nat, connId: nat, notify: bool, cfg: Config, now: nat)
    requires k < |was|
    ensures var cs, i := DropFront(was, k, connId, notify, cfg, now), |DropAll(was[..k], connId, notify, cfg, now)|;
      && i < |cs| && cs[i] == was[k]
      && |DropAll(was[..k + 1], connId, notify, cfg, now)| == i + |DropOne(was[k], connId, notify, cfg, now)|
      && DropFront(was, k + 1, connId, notify, cfg, now)
         == cs[..i] + DropOne(was[k], connId, notify, cfg, now) + cs[i + 1..]
  {
    DropSteps(was, k, connId, notify, cfg, now);
  }

  /** The state of the traversal of dropConn before entry `k`, no active entry of the id so far. */
  ghost predicate Dropping(was: seq<Conn>, k: nat, cs: seq<Conn>, i: nat, connId: nat, notify: bool,
                           cfg: Config, now: nat)
  {
    && k <= |was| && cs == DropFront(was, k, connId, notify, cfg, now)
    && i == |DropAll(was[..k], connId, notify, cfg, now)|
    && !Has(was[..k], connId, false)
  }

  lemma DropBegins(was: seq<Conn>, connId: nat, notify: bool, cfg: Config, now: nat)
    ensures Dropping(was, 0, was, 0, connId, notify, cfg, now)
  {
    assert was[0..] == was;
  }

  /** One turn of the traversal: either it goes on, or the active entry was found and the list is
      in its final form. */
  lemma DropTurn(was: seq<Conn>, k: nat, cs: seq<Conn>, i: nat, connId: nat, notify: bool, cfg: Config, now: nat)
    requires Unique(was) && Dropping(was, k, cs, i, connId, notify, cfg, now)
    ensures i < |cs| <==> k < |was|
    ensures i < |cs| ==>
      var left := DropOne(cs[i], connId, notify, cfg, now);
      var cs' := cs[..i] + left + cs[i + 1..];
      if cs[i].connId == connId && !cs[i].removed
      then cs' == DropAll(was, connId, notify, cfg, now) && Has(was, connId, false)
      else Dropping(was, k + 1, cs', i + |left|, connId, notify, cfg, now)
    ensures i >= |cs| ==> cs == DropAll(was, connId, notify, cfg, now) && !Has(was, connId, false)
  {
    if k < |was| {
      DropStep(was, k, connId, notify, cfg, now);
      HasUpTo(was, k, connId);
      if was[k].connId == connId && !was[k].removed {
        LastOfId(was, k, connId);
        DropElsewhere(was[k + 1..], connId, notify, cfg, now);
        DropSteps(was, k, connId, notify, cfg, now);
      }
    } else {
      assert was[..k] == was;
    }
  }

  lemma LastOfId(was: seq<Conn>, k: nat, connId: nat)
    requires Unique(was) && k < |was| && was[k].connId == connId
    ensures forall c :: c in was[k + 1..] ==> c.connId != connId
  {
    forall c | c in was[k + 1..]
      ensures c.connId != connId
    {
      var j :| 0 <= j < |was[k + 1..]| && was[k + 1..][j] == c;
      assert was[k + 1 + j] == c && Distinct(was[k], was[k + 1 + j]);
    }
  }

  lemma ScanSteps(was: seq<Conn>, k: nat, time: nat, exiting: bool)
    requires k < |was|
    ensures ScanAll(was[..k + 1], time, exiting) == ScanAll(was[..k], time, exiting) + ScanOne(was[k], time, exiting)
  {
    var f := c => ScanOne(c, time, exiting);
    assert was[..k + 1] == was[..k] + [was[k]];
    FlatAppend(was[..k], [was[k]], f);
    assert Flat([was[k]], f) == f(was[k]) + Flat([], f);
  }

  /** The list inside checkTimers: the first `k` entries handled, the others as they were. */
  ghost function ScanFront(was: seq<Conn>, k: nat, time: nat, exiting: bool): seq<Conn>
    requires k <= |was|
  {
    ScanAll(was[..k], time, exiting) + was[k..]
  }

  lemma ScanStep(was: seq<Conn>, k: nat, time: nat, exiting: bool)
    requires k < |was|
    ensures var cs, i := ScanFront(was, k, time, exiting), |ScanAll(was[..k], time, exiting)|;
      && i < |cs| && cs[i] == was[k]
      && |ScanAll(was[..k + 1], time, exiting)| == i + |ScanOne(was[k], time, exiting)|
      && ScanFront(was, k + 1, time, exiting) == cs[..i] + ScanOne(was[k], time, exiting) + cs[i + 1..]
  {
    ScanSteps(was, k, time, exiting);
  }

  /** The state of the loop of checkTimers before entry `k`. */
  ghost predicate Scanning(was: seq<Conn>, k: nat, cs: seq<Conn>, i: nat, time: nat, exiting: bool) {
    && k <= |was| && cs == ScanFront(was, k, time, exiting) && i == |ScanAll(was[..k], time, exiting)|
  }

  ghost predicate SeenSoFar(was: seq<Conn>, k: nat, start: Cache, cache: Cache, remove: seq<nat>,
                            time: nat, exiting: bool)
  {
    && k <= |was| && cache == CheckConns(start, was[..k], time, exiting)
    && remove == IdleIds(was[..k], time, exiting)
  }

  lemma ScanBegins(was: seq<Conn>, start: Cache, time: nat, exiting: bool)
    ensures Scanning(was, 0, was, 0, time, exiting) && SeenSoFar(was, 0, start, start, [], time, exiting)
  {
    assert was[0..] == was;
  }

  lemma ScanTurn(was: seq<Conn>, k: nat, cs: seq<Conn>, i: nat, time: nat, exiting: bool)
    requires Scanning(was, k, cs, i, time, exiting)
    ensures i < |cs| <==> k < |was|
    ensures i < |cs| ==> cs[i] == was[k]
    ensures i < |cs| ==>
      var left := ScanOne(cs[i], time, exiting);
      Scanning(was, k + 1, cs[..i] + left + cs[i + 1..], i + |left|, time, exiting)
    ensures i >= |cs| ==> cs == ScanAll(was, time, exiting)
  {
    if k < |was| {
      ScanStep(was, k, time, exiting);
    } else {
      assert was[..k] == was;
    }
  }

  lemma SeenTurn(was: seq<Conn>, k: nat, start: Cache, cache: Cache, remove: seq<nat>, time: nat, exiting: bool)
    requires SeenSoFar(was, k, start, cache, remove, time, exiting)
    ensures k < |was| ==>
      SeenSoFar(was, k + 1, start, Seen(cache, was[k], time, exiting),
                if IdleDue(was[k], time, exiting) then remove + [was[k].connId] else remove, time, exiting)
    ensures k >= |was| ==>
      cache == CheckConns(start, was, time, exiting) && remove == IdleIds(was, time, exiting)
  {
    if k < |was| {
      PassStep(start, was, k, time, exiting);
    } else {
      assert was[..k] == was;
    }
  }

  class YbtsSignalling {
    var conns: seq<Conn>
    var haveConnTout: bool
    var connsTimeout: nat
    const cfg: Config

    ghost predicate Valid() reads this { Unique(conns) }

    function State(): Table reads this { Table(conns, Cache(haveConnTout, connsTimeout)) }

    constructor (cfg: Config)
      ensures Valid() && State() == Table([], Cache(false, 0)) && this.cfg == cfg
    {
      conns, haveConnTout, connsTimeout := [], false, 0;
      this.cfg := cfg;
    }

    method SetConnToutCheck(tout: nat)
      modifies `haveConnTout, `connsTimeout
      ensures State() == old(State()).(cache := Check(old(State()).cache, tout))
    {
      if tout != 0 && (connsTimeout == 0 || tout < connsTimeout) {
        haveConnTout := true;
        connsTimeout := tout;
      }
    }

    /** findConnInternal: the active entry of the id; failing that a new one if asked for, unless
        the id waits to be deleted, in which case that entry is given only to who asks for it. */
    method FindConn(connId: nat, create: bool, removed: bool, uid: nat) returns (conn: Option<Conn>)
      requires Valid() && forall c :: c in conns ==> c.uid != uid
      modifies this
      ensures Valid() && State() == if create then Created(old(State()), connId, uid) else old(State())
      ensures conn.None? <==> Missing(old(conns), connId, create, removed)
      ensures conn.Some? ==> conn.value in conns && conn.value.connId == connId
      ensures conn.Some? && conn.value.removed ==> !Has(old(conns), connId, false)
    {
      var removedConn: Option<Conn> := None;
      var i := 0;
      while i < |conns|
        invariant i <= |conns|
        invariant forall c :: c in conns[..i] && c.connId == connId ==> c.removed && removedConn.Some?
        invariant removedConn.Some? ==> removedConn.value in conns[..i] && removedConn.value.removed
        invariant removedConn.Some? ==> removedConn.value.connId == connId
      {
        var c := conns[i];
        assert conns[..i + 1] == conns[..i] + [c];
        if c.connId == connId {
          if !c.removed { return Some(c); }
          removedConn := Some(c);
        }
        i := i + 1;
      }
      assert conns[..i] == conns;
      if create && removedConn.None? {
        conn := Some(NewConn(uid, connId));
        conns := conns + [conn.value];
      } else {
        conn := if removed then removedConn else None;
      }
    }

    /** setConnUsageInternal on the connection: its new form and the timer it starts, if any. */
    method CountUsage(conn: Conn, on: bool, flag: Option<SmsFlag>, update: bool, now: nat) returns (c: Conn, tout: nat)
      ensures c == Used(conn, on, flag, update, cfg, now)
      ensures tout == if c.timeout != conn.timeout then c.timeout else 0
    {
      c, tout := conn, 0;
      if c.removed { return; }
      match flag {
        case Some(MoSms) => if on { c := c.(extended := c.extended - {CmSms}); }
        case Some(MtSms) => if on { c := c.(extended := c.extended + {MtSms}); }
        case Some(CmSms) => c := c.(extended := if on then c.extended + {CmSms} else c.extended - {CmSms});
        case None =>
      }
      if !update { return; }
      if on {
        c := c.(usage := c.usage + 1);
      } else if c.usage > 0 {
        c := c.(usage := c.usage - 1);
      }
      if c.usage > 0 {
        c := c.(timeout := 0);
      } else if c.timeout == 0 {
        tout := now + (if c.extended == {} then cfg.idleMs else cfg.idleMtSmsMs) * 1000;
        c := c.(timeout := tout);
      }
    }

    /** setConnUsageInternal on an entry of the list. */
    method SetConnUsage(uid: nat, on: bool, flag: Option<SmsFlag>, update: bool, now: nat)
      requires Valid()
      modifies this
      ensures Valid() && State() == WithUsage(old(State()), uid, on, flag, update, cfg, now)
    {
      var i := IndexOf(conns, uid);
      if i == |conns| { return; }
      ghost var was := conns;
      var c, tout := conns[i], 0;
      c, tout := CountUsage(c, on, flag, update, now);
      conns := conns[i := c];
      SetConnToutCheck(tout);
      assert forall j :: 0 <= j < |conns| ==> conns[j].uid == was[j].uid && conns[j].connId == was[j].connId;
    }

    /** What dropConn does with the entry at hand, and the place of the next one. */
    method DropAt(i: nat, connId: nat, notify: bool, now: nat) returns (next: nat, dropped: bool, tout: nat)
      requires i < |conns|
      modifies `conns
      ensures conns == old(conns)[..i] + DropOne(old(conns)[i], connId, notify, cfg, now) + old(conns)[i + 1..]
      ensures next == i + |DropOne(old(conns)[i], connId, notify, cfg, now)|
      ensures dropped <==> old(conns)[i].connId == connId && !old(conns)[i].removed
      ensures tout == if dropped && notify && cfg.releaseMs > 0 then now + cfg.releaseMs * 1000 else 0
    {
      var c := conns[i];
      next, dropped, tout := i + 1, false, 0;
      if c.connId != connId {
      } else if c.removed && !notify {
        next := i;
      } else if !c.removed {
        dropped := true;
        if notify && cfg.releaseMs > 0 {
          tout := now + cfg.releaseMs * 1000;
          c := c.(removed := true, usage := 0, authTout := 0, timeout := tout);
        } else {
          next := i;
        }
      }
      conns := if next == i then conns[..i] + conns[i + 1..] else conns[i := c];
    }

    /** The traversal of dropConn; it stops at the first active entry. */
    method DropEntries(connId: nat, notify: bool, now: nat) returns (dropped: bool, tout: nat)
      requires Valid()
      modifies `conns
      ensures conns == DropAll(old(conns), connId, notify, cfg, now)
      ensures tout == if dropped && notify && cfg.releaseMs > 0 then now + cfg.releaseMs * 1000 else 0
      ensures dropped <==> Has(old(conns), connId, false)
    {
      ghost var was := conns;
      ghost var k: nat := 0;
      DropBegins(was, connId, notify, cfg, now);
      hide DropAll, DropOne, Dropping, Has, Unique;
      var i: nat := 0;
      dropped, tout := false, 0;
      while i < |conns|
        invariant Dropping(was, k, conns, i, connId, notify, cfg, now) && !dropped && tout == 0
        decreases |was| - k
      {
        DropTurn(was, k, conns, i, connId, notify, cfg, now);
        i, dropped, tout := DropAt(i, connId, notify, now);
        if dropped { return; }
        k := k + 1;
      }
      DropTurn(was, k, conns, i, connId, notify, cfg, now);
    }

    /** The part of dropConn under the mutex. */
    method DropConn(connId: nat, notify: bool, now: nat) returns (dropped: bool)
      requires Valid()
      modifies this
      ensures Valid() && State() == Dropped(old(State()), connId, notify, cfg, now)
      ensures dropped <==> Has(old(conns), connId, false)
    {
      DropKeepsUnique(conns, connId, notify, cfg, now);
      hide DropAll;
      var tout;
      dropped, tout := DropEntries(connId, notify, now);
      assert tout == DropTimer(old(conns), connId, notify, cfg, now);
      SetConnToutCheck(tout);
    }

    /** What checkTimers does with an active entry: the sessions that timed out are taken away,
        the other timers are seen again. */
    method CheckConnTimers(c: Conn, time: nat, exiting: bool) returns (left: Conn, due: bool)
      requires !c.removed
      modifies `haveConnTout, `connsTimeout
      ensures ScanOne(c, time, exiting) == [left] && (due <==> IdleDue(c, time, exiting))
      ensures State().cache == Seen(old(State()).cache, c, time, exiting)
    {
      left, due := c, false;
      if c.ssTout != 0 {
        if exiting || c.ssTout <= time { left := left.(ssTout := 0); } else { SetConnToutCheck(c.ssTout); }
      }
      if c.authTout != 0 {
        if c.authTout <= time { left := left.(authTout := 0); } else { SetConnToutCheck(c.authTout); }
      }
      if c.timeout != 0 {
        if exiting || c.timeout <= time { due := true; } else { SetConnToutCheck(c.timeout); }
      }
    }

    /** What checkTimers does with the entry at hand, and the place of the next one. */
    method CheckEntry(i: nat, time: nat, exiting: bool) returns (next: nat, due: bool)
      requires i < |conns|
      modifies this
      ensures conns == old(conns)[..i] + ScanOne(old(conns)[i], time, exiting) + old(conns)[i + 1..]
      ensures next == i + |ScanOne(old(conns)[i], time, exiting)|
      ensures due <==> IdleDue(old(conns)[i], time, exiting)
      ensures State().cache == Seen(old(State()).cache, old(conns)[i], time, exiting)
    {
      var c := conns[i];
      next, due := i + 1, false;
      if !c.removed {
        c, due := CheckConnTimers(c, time, exiting);
        conns := conns[i := c];
      } else if exiting || c.timeout <= time {
        conns := conns[..i] + conns[i + 1..];
        next := i;
      } else {
        SetConnToutCheck(c.timeout);
      }
    }

    /** The part of checkTimers under the mutex: the connections to drop afterwards. */
    method CheckTimers(time: nat, exiting: bool) returns (remove: seq<nat>)
      requires Valid()
      modifies this
      ensures Valid() && State() == Scanned(old(State()), time, exiting)
      ensures remove == ToDrop(old(State()), time, exiting)
    {
      remove := [];
      if !haveConnTout { return; }
      if connsTimeout != 0 && connsTimeout <= time {
        connsTimeout := 0;
        remove := CheckEntries(time, exiting);
      }
      haveConnTout := connsTimeout != 0;
    }

    /** The loop of checkTimers. */
    method CheckEntries(time: nat, exiting: bool) returns (remove: seq<nat>)
      requires Valid()
      modifies this
      ensures Valid() && conns == ScanAll(old(conns), time, exiting)
      ensures State().cache == CheckConns(old(State()).cache, old(conns), time, exiting)
      ensures remove == IdleIds(old(conns), time, exiting)
    {
      ghost var was, start := conns, State().cache;
      ghost var k: nat := 0;
      ScanKeepsUnique(was, time, exiting);
      ScanBegins(was, start, time, exiting);
      hide ScanAll, ScanOne, Scanning, SeenSoFar, Unique, IdleDue, Seen, CheckConns, IdleIds;
      var i: nat := 0;
      remove := [];
      while i < |conns|
        invariant Scanning(was, k, conns, i, time, exiting)
        invariant SeenSoFar(was, k, start, State().cache, remove, time, exiting)
        decreases |was| - k
      {
        ScanTurn(was, k, conns, i, time, exiting);
        SeenTurn(was, k, start, State().cache, remove, time, exiting);
        var id, due := conns[i].connId, false;
        i, due := CheckEntry(i, time, exiting);
        if due { remove := remove + [id]; }
        k := k + 1;
      }
      ScanTurn(was, k, conns, i, time, exiting);
      SeenTurn(was, k, start, State().cache, remove, time, exiting);
    }

    /** The search of connUeChanged for the other connections that hold the UE. */
    method ConnUeChanged(uid: nat, ue: nat) returns (remove: set<nat>)
      ensures remove == Rivals(conns, uid, ue)
    {
      remove := {};
      var i := 0;
      while i < |conns|
        invariant i <= |conns| && remove == Rivals(conns[..i], uid, ue)
      {
        var c := conns[i];
        assert conns[..i + 1] == conns[..i] + [c];
        RivalsAppend(conns[..i], c, uid, ue);
        if !(c.uid == uid || c.ue != Some(ue) || c.removed) {
          remove := remove + {c.connId};
        }
        i := i + 1;
      }
      assert conns[..i] == conns;
    }
  }

  lemma RivalsAppend(cs: seq<Conn>, c: Conn, uid: nat, ue: nat)
    ensures Rivals(cs + [c], uid, ue)
         == Rivals(cs, uid, ue) + Rivals([c], uid, ue)
    ensures Rivals([c], uid, ue) == if c.uid == uid || c.ue != Some(ue) || c.removed then {} else {c.connId}
  {
    assert forall d :: d in cs + [c] <==> d in cs || d == c;
    assert forall d :: d in [c] <==> d == c;
  }
}
