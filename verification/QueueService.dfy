/** What a queue promises one user (GenQueue in transceiver/transceiver.cpp): an object handed to add
    gets in unless its thread gives up, and a token is there for whoever waits. */
module QueueService {
  import opened GenQueue

  /** The object is with its thread, or was appended as number `since` or later. */
  ghost predicate UnderWay<T>(w: World<T>, th: nat, x: T, since: nat) {
    || (th in w.waiting && w.waiting[th] == x)
    || (th in w.holding && w.holding[th] == x)
    || exists k :: since <= k < |w.ins| && w.ins[k] == x
  }

  lemma StepUnderWay<T>(w: World<T>, e: Event<T>, th: nat, x: T, since: nat)
    requires w.Valid() && Enabled(w, e) && UnderWay(w, th, x, since) && since <= |w.ins| && e != GiveUp(th)
    ensures UnderWay(Next(w, e), th, x, since) && since <= |Next(w, e).ins|
  {
    var n := Next(w, e);
    assert w.ins <= n.ins;
    if k :| since <= k < |w.ins| && w.ins[k] == x {
      assert n.ins[k] == x;
    } else if e == Resume(th) {
      assert n.ins[|w.ins|] == w.holding[th];
    }
  }

  lemma {:induction false} RunUnderWay<T>(w: World<T>, es: seq<Event<T>>, w': World<T>, th: nat, x: T, since: nat)
    requires w.Valid() && Run(w, es, w') && UnderWay(w, th, x, since) && since <= |w.ins|
    requires forall e :: e in es ==> e != GiveUp(th)
    ensures UnderWay(w', th, x, since)
    decreases |es|
  {
    hide UnderWay, Next;
    if es != [] {
      assert es[0] in es;
      StepUnderWay(w, es[0], th, x, since);
      assert forall e :: e in es[1..] ==> e in es;
      RunUnderWay(Next(w, es[0]), es[1..], w', th, x, since);
    }
  }

  /** An object given to add is in the queue, or was already taken out in its turn, as soon as its
      thread neither waits nor holds a token, unless the thread gave up. */
  lemma AddedGetsIn<T>(w: World<T>, th: nat, x: T, es: seq<Event<T>>, w': World<T>)
    requires w.Valid() && Enabled(w, Begin(th, x)) && Run(Next(w, Begin(th, x)), es, w')
    requires forall e :: e in es ==> e != GiveUp(th)
    ensures th !in w'.waiting && th !in w'.holding ==> exists k :: |w.ins| <= k < |w'.ins| && w'.ins[k] == x
  {
    var n := Next(w, Begin(th, x));
    assert th !in n.waiting ==> n.ins[|w.ins|] == x;
    RunUnderWay(n, es, w', th, x, |w.ins|);
  }

  // ---- The used places ----

  lemma {:induction false} NobodyTakes<T>(w: World<T>, es: seq<Event<T>>, w': World<T>)
    requires w.Valid() && Run(w, es, w') && forall e :: e in es ==> !e.TakeUsed?
    ensures w'.q.used >= w.q.used
    decreases |es|
  {
    if es != [] {
      assert es[0] in es;
      NobodyTakes(Next(w, es[0]), es[1..], w');
    }
  }

  /** Once add has posted, a waiting taker finds a token, until one is taken. */
  lemma PostSignals<T>(w: World<T>, th: nat, es: seq<Event<T>>, w': World<T>)
    requires w.Valid() && w.q.max > 0 && Enabled(w, Post(th)) && Run(Next(w, Post(th)), es, w')
    requires forall e :: e in es ==> !e.TakeUsed?
    ensures w'.q.used > 0
  {
    NobodyTakes(Next(w, Post(th)), es, w');
  }

  ghost function PostsIn<T>(es: seq<Event<T>>): nat {
    if es == [] then 0 else (if es[0].Post? then 1 else 0) + PostsIn(es[1..])
  }

  ghost function TakesIn<T>(es: seq<Event<T>>): nat {
    if es == [] then 0 else (if es[0].TakeUsed? then 1 else 0) + TakesIn(es[1..])
  }

  /** Posts that find the semaphore at the maximum. */
  ghost function LostIn<T>(w: World<T>, es: seq<Event<T>>, w': World<T>): nat
    requires w.Valid() && Run(w, es, w')
    decreases |es|
  {
    if es == [] then 0
    else (if es[0].Post? && w.q.used >= w.q.max then 1 else 0) + LostIn(Next(w, es[0]), es[1..], w')
  }

  /** Every post is a token, taken or still there, but for those that found the semaphore full. */
  lemma {:induction false} UsedTokens<T>(w: World<T>, es: seq<Event<T>>, w': World<T>)
    requires w.Valid() && Run(w, es, w')
    ensures w'.q.used + TakesIn(es) + LostIn(w, es, w') == w.q.used + PostsIn(es)
    decreases |es|
  {
    if es != [] {
      UsedTokens(Next(w, es[0]), es[1..], w');
    }
  }
}
