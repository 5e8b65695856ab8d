/** GenQueue (transceiver/transceiver.cpp): a list under a mutex with a semaphore of free places
    and one of used places. A semaphore never counts past the maximum. Threads interleave
    between the critical sections and the semaphore operations. */
module GenQueue {
  datatype Option<+T> = None | Some(value: T)

  /** The queue object. */
  datatype Queue<T> = Queue(max: nat, data: seq<T>, count: nat, empty: bool, free: nat, used: nat)
  {
    ghost predicate Valid() {
      count == |data| && (empty <==> data == []) && (max > 0 ==> free <= max && used <= max)
    }

    function Append(x: T): Queue<T> {
      this.(data := data + [x], count := count + 1, empty := false)
    }

    function Pop(): Queue<T>
      requires data != [] && count > 0
    {
      this.(data := data[1..], count := count - 1, empty := empty || count == 1)
    }

    function PostFree(): Queue<T> {
      this.(free := if free < max then free + 1 else free)
    }

    function PostUsed(): Queue<T> {
      this.(used := if used < max then used + 1 else used)
    }
  }

  /** The object itself, one method per critical section or semaphore operation. */
  class GenQueue<T> {
    const max: nat
    var data: seq<T>
    var count: nat
    var empty: bool
    var free: nat
    var used: nat

    ghost function State(): Queue<T>
      reads this
    {
      Queue(max, data, count, empty, free, used)
    }

    ghost predicate Valid()
      reads this
    {
      State().Valid()
    }

    /** `tokens` is the semaphores' initial count. */
    constructor (max: nat, tokens: nat)
      ensures Valid() && this.max == max && data == [] && empty
      ensures max > 0 ==> used == 0 && free == max
      ensures max == 0 ==> free == used == tokens
    {
      this.max := max;
      data, count, empty := [], 0, true;
      free, used := if max > 0 then max else tokens, if max > 0 then 0 else tokens;
    }

    /** add, first critical section: append unless the queue is full. */
    method TryAppend(x: T) returns (done: bool)
      requires Valid()
      modifies this`data, this`count, this`empty
      ensures Valid() && done == (old(|data|) < max)
      ensures State() == if done then old(State()).Append(x) else old(State())
    {
      done := !(max <= count);
      if done {
        data, count, empty := data + [x], count + 1, false;
      }
    }

    /** add, second critical section, reached with a free token in hand. */
    method AppendWithToken(x: T)
      requires Valid()
      modifies this`data, this`count, this`empty
      ensures Valid() && State() == old(State()).Append(x)
    {
      data, count, empty := data + [x], count + 1, false;
    }

    method InternalPop() returns (x: Option<T>)
      requires Valid()
      modifies this`data, this`count, this`empty
      ensures Valid()
      ensures if old(data) == [] then x == None && State() == old(State())
              else x == Some(old(data)[0]) && State() == old(State()).Pop()
    {
      if data == [] {
        return None;
      }
      x := Some(data[0]);
      data, count := data[1..], count - 1;
      if count == 0 {
        empty := true;
      }
    }

    /** m_free.lock(), if it does not time out. */
    method TakeFree() returns (ok: bool)
      requires Valid()
      modifies this`free
      ensures Valid() && ok == (old(free) > 0)
      ensures free == if ok then old(free) - 1 else old(free)
    {
      ok := free > 0;
      if ok {
        free := free - 1;
      }
    }

    /** m_free.unlock(). */
    method PostFree()
      requires Valid()
      modifies this`free
      ensures Valid() && State() == old(State()).PostFree()
    {
      if free < max {
        free := free + 1;
      }
    }
  }

  /** The queue and where each thread stands.
      waiting    adders that found the queue full and wait for a free token
      holding    adders with a token that have not appended yet
      posting    adders that appended and have not posted `used` yet
      releasing  takers that popped and have not posted `free` yet
      ins, outs  everything appended and popped so far, in order */
  datatype World<T> = World(q: Queue<T>, adders: set<nat>, takers: set<nat>,
                            waiting: map<nat, T>, holding: map<nat, T>, posting: set<nat>,
                            releasing: set<nat>, ins: seq<T>, outs: seq<T>)
  {
    ghost predicate Valid() {
      && q.Valid() && ins == outs + q.data
      && holding.Keys <= adders && releasing <= takers
    }

    /** Objects, tokens, and tokens on their way from or to the semaphore. */
    ghost function Load(): nat {
      q.count + q.free + |holding.Keys| + |releasing|
    }
  }

  datatype Event<T> = Begin(th: nat, x: T) | Take(th: nat) | GiveUp(th: nat) | Resume(th: nat)
                    | Post(th: nat) | Pop(th: nat) | Release(th: nat) | TakeUsed

  ghost predicate Enabled<T>(w: World<T>, e: Event<T>) {
    match e
    case Begin(th, _) => th in w.adders && th !in w.waiting && th !in w.holding && th !in w.posting
    case Take(th) => th in w.waiting && th in w.adders && th !in w.holding && w.q.free > 0
    case GiveUp(th) => th in w.waiting
    case Resume(th) => th in w.holding
    case Post(th) => th in w.posting
    case Pop(th) => th in w.takers && th !in w.releasing
    case Release(th) => th in w.releasing
    case TakeUsed => w.q.used > 0
  }

  /** add appends at once exactly if it finds room. */
  ghost predicate AppendsAtOnce<T>(w: World<T>, e: Event<T>) {
    e.Begin? && w.q.count < w.q.max
  }

  /** add takes the mutex: there is room, or it must wait for a token. */
  ghost function Began<T>(w: World<T>, th: nat, x: T): (w': World<T>)
    requires w.Valid()
    ensures w'.Valid()
  {
    if w.q.count < w.q.max then w.(q := w.q.Append(x), posting := w.posting + {th}, ins := w.ins + [x])
    else w.(waiting := w.waiting[th := x])
  }

  /** add goes on with the token it took. */
  ghost function Resumed<T>(w: World<T>, th: nat): (w': World<T>)
    requires w.Valid() && th in w.holding
    ensures w'.Valid()
  {
    w.(q := w.q.Append(w.holding[th]), holding := w.holding - {th},
       posting := if w.q.max > 0 then w.posting + {th} else w.posting,
       ins := w.ins + [w.holding[th]])
  }

  /** pop takes the first object, if there is one. */
  ghost function Popped<T>(w: World<T>, th: nat): (w': World<T>)
    requires w.Valid() && th in w.takers
    ensures w'.Valid()
  {
    if w.q.data == [] then w
    else
      assert w.q.data == [w.q.data[0]] + w.q.data[1..];
      w.(q := w.q.Pop(), outs := w.outs + [w.q.data[0]],
         releasing := if w.q.max > 0 then w.releasing + {th} else w.releasing)
  }

  ghost function Next<T>(w: World<T>, e: Event<T>): (w': World<T>)
    requires w.Valid() && Enabled(w, e)
    ensures w'.Valid()
  {
    match e
    case Begin(th, x) => Began(w, th, x)
    case Take(th) =>
      w.(q := w.q.(free := w.q.free - 1), waiting := w.waiting - {th},
         holding := w.holding[th := w.waiting[th]])
    case GiveUp(th) => w.(waiting := w.waiting - {th})
    case Resume(th) => Resumed(w, th)
    case Post(th) => w.(q := w.q.PostUsed(), posting := w.posting - {th})
    case Pop(th) => Popped(w, th)
    case Release(th) => w.(q := w.q.PostFree(), releasing := w.releasing - {th})
    case TakeUsed => w.(q := w.q.(used := w.q.used - 1))
  }

  ghost predicate Run<T>(w: World<T>, es: seq<Event<T>>, w': World<T>)
    requires w.Valid()
    decreases |es|
  {
    if es == [] then w' == w
    else Enabled(w, es[0]) && Run(Next(w, es[0]), es[1..], w')
  }

  ghost predicate Initial<T>(w: World<T>) {
    && w.q.data == [] && w.q.count == 0 && w.q.empty
    && (w.q.max > 0 ==> w.q.free == w.q.max && w.q.used == 0)
    && w.waiting == w.holding == map[] && w.posting == w.releasing == {}
    && w.ins == w.outs == []
  }

  /** Objects come out in the order they went in, the counter is the list length and the flag
      says whether the list is empty, in every interleaving. */
  lemma {:induction false} FirstInFirstOut<T>(w: World<T>, es: seq<Event<T>>, w': World<T>)
    requires w.Valid() && Run(w, es, w')
    ensures w'.Valid() && w'.outs <= w'.ins && w'.ins[|w'.outs|..] == w'.q.data
    ensures w'.q.count == |w'.ins| - |w'.outs| && (w'.q.empty <==> w'.q.count == 0)
    decreases |es|
  {
    if es != [] {
      FirstInFirstOut(Next(w, es[0]), es[1..], w');
    }
  }

  // ---- How full a bounded queue can get ----

  /** At most `slack` tokens were on their way whenever add appended at once. */
  ghost predicate Disturbed<T>(w: World<T>, es: seq<Event<T>>, slack: nat)
    requires w.Valid()
    decreases |es|
  {
    es == []
    || (Enabled(w, es[0])
        && (AppendsAtOnce(w, es[0]) ==> |w.holding.Keys| + |w.releasing| <= slack)
        && Disturbed(Next(w, es[0]), es[1..], slack))
  }

  /** Who holds a token after an event. */
  lemma HeldAfter<T>(w: World<T>, e: Event<T>)
    requires w.Valid() && Enabled(w, e)
    ensures Next(w, e).holding.Keys
         == if e.Take? then w.holding.Keys + {e.th} else if e.Resume? then w.holding.Keys - {e.th} else w.holding.Keys
  {
    match e
    case Take(th) => assert w.holding[th := w.waiting[th]].Keys == w.holding.Keys + {th};
    case Resume(th) => assert (w.holding - {th}).Keys == w.holding.Keys - {th};
    case _ =>
  }

  lemma ReleasingAfter<T>(w: World<T>, e: Event<T>)
    requires w.Valid() && Enabled(w, e)
    ensures Next(w, e).releasing
         == if e.Pop? && w.q.data != [] && w.q.max > 0 then w.releasing + {e.th}
            else if e.Release? then w.releasing - {e.th} else w.releasing
  {
  }

  lemma OneMoreOrLess(s: set<nat>, x: nat)
    ensures x !in s ==> |s + {x}| == |s| + 1
    ensures x in s ==> |s - {x}| == |s| - 1
  {
  }

  /** A token taken is one more held, until the adder goes on. */
  lemma TokensHeld<T>(w: World<T>, e: Event<T>)
    requires w.Valid() && Enabled(w, e)
    ensures |Next(w, e).holding.Keys|
         == |w.holding.Keys| + (if e.Take? then 1 else if e.Resume? then -1 else 0)
  {
    HeldAfter(w, e);
    hide Next;
    if e.Take? || e.Resume? {
      OneMoreOrLess(w.holding.Keys, e.th);
    }
  }

  /** A token of a taker is on its way from its pop to its post. */
  lemma TokensReleasing<T>(w: World<T>, e: Event<T>)
    requires w.Valid() && Enabled(w, e)
    ensures |Next(w, e).releasing| == |w.releasing|
         + (if e.Pop? && w.q.data != [] && w.q.max > 0 then 1 else if e.Release? then -1 else 0)
  {
    ReleasingAfter(w, e);
    hide Next;
    if e.Pop? || e.Release? {
      OneMoreOrLess(w.releasing, e.th);
    }
  }

  /** Only an append at once raises the load, and it does so by one. */
  lemma StepLoad<T>(w: World<T>, e: Event<T>)
    requires w.Valid() && Enabled(w, e) && w.q.max > 0
    ensures AppendsAtOnce(w, e) ==> Next(w, e).Load() == w.Load() + 1
    ensures !AppendsAtOnce(w, e) ==> Next(w, e).Load() <= w.Load()
    ensures Next(w, e).q.max == w.q.max
  {
    TokensHeld(w, e);
    TokensReleasing(w, e);
  }

  /** Objects queued plus free tokens stay within twice the maximum plus the tokens that were
      on their way while add appended at once. */
  lemma {:induction false} LoadIsBounded<T>(w: World<T>, es: seq<Event<T>>, w': World<T>, slack: nat)
    requires w.Valid() && w.q.max > 0 && Run(w, es, w')
    requires Disturbed(w, es, slack) && w.Load() <= 2 * w.q.max + slack
    ensures w'.q.count + w'.q.free <= 2 * w.q.max + slack
    decreases |es|
  {
    if es != [] {
      StepLoad(w, es[0]);
      LoadIsBounded(Next(w, es[0]), es[1..], w', slack);
    }
  }

  lemma SubsetSize(a: set<nat>, b: set<nat>)
    requires a <= b
    ensures |a| <= |b|
  {
    assert b == a + (b - a);
  }

  /** In every interleaving the excess is at most one per other adder and one per taker: only
      they can have a token on its way. */
  lemma {:induction false} AnyRunIsDisturbedBy<T>(w: World<T>, es: seq<Event<T>>, w': World<T>)
    requires w.Valid() && w.adders != {} && Run(w, es, w')
    ensures Disturbed(w, es, |w.adders| - 1 + |w.takers|)
    decreases |es|
  {
    if es != [] {
      ThreadsStay(w, es[0]);
      AnyRunIsDisturbedBy(Next(w, es[0]), es[1..], w');
      if es[0].Begin? {
        TokensOnTheirWay(w, es[0].th);
      }
    }
  }

  lemma ThreadsStay<T>(w: World<T>, e: Event<T>)
    requires w.Valid() && Enabled(w, e)
    ensures Next(w, e).adders == w.adders && Next(w, e).takers == w.takers
  {
  }

  lemma TokensOnTheirWay<T>(w: World<T>, th: nat)
    requires w.Valid() && th in w.adders && th !in w.holding
    ensures |w.holding.Keys| + |w.releasing| <= |w.adders| - 1 + |w.takers|
  {
    SubsetSize(w.holding.Keys, w.adders - {th});
    SubsetSize(w.releasing, w.takers);
  }

  lemma GeneralBound<T>(w: World<T>, es: seq<Event<T>>, w': World<T>)
    requires w.Valid() && Initial(w) && w.q.max > 0 && w.adders != {} && Run(w, es, w')
    ensures w'.q.count + w'.q.free <= 2 * w.q.max + |w.adders| - 1 + |w.takers|
  {
    hide Next, Run, Disturbed;
    AnyRunIsDisturbedBy(w, es, w');
    assert w.holding.Keys == {} && w.Load() == w.q.max;
    LoadIsBounded(w, es, w', |w.adders| - 1 + |w.takers|);
  }

  lemma {:induction false} RunsJoin<T>(w: World<T>, es: seq<Event<T>>, m: World<T>, es': seq<Event<T>>, w': World<T>)
    requires w.Valid() && m.Valid() && Run(w, es, m) && Run(m, es', w')
    ensures Run(w, es + es', w')
    decreases |es|
  {
    if es == [] {
      assert es + es' == es';
    } else {
      assert (es + es')[1..] == es[1..] + es';
      RunsJoin(Next(w, es[0]), es[1..], m, es', w');
    }
  }

  lemma Prepend<T>(w: World<T>, e: Event<T>, es: seq<Event<T>>, w': World<T>)
    requires w.Valid() && Enabled(w, e) && Run(Next(w, e), es, w')
    ensures Run(w, [e] + es, w')
  {
    assert ([e] + es)[1..] == es;
  }

  lemma StepWithoutMaximum<T>(w: World<T>, e: Event<T>)
    requires w.Valid() && Enabled(w, e) && w.q.max == 0 && w.releasing == w.posting == {}
    ensures var n := Next(w, e);
            && n.q.max == 0 && n.releasing == n.posting == {}
            && |n.ins| + n.q.free + |n.holding.Keys| == |w.ins| + w.q.free + |w.holding.Keys|
  {
    TokensHeld(w, e);
  }

  /** A queue made without a maximum blocks: add always waits for a free token and waitPop never
      posts one, so no more objects ever get in than the semaphore had tokens to begin with. */
  lemma {:induction false} WithoutMaximumOnlyInitialTokens<T>(w: World<T>, es: seq<Event<T>>, w': World<T>)
    requires w.Valid() && w.q.max == 0 && w.releasing == w.posting == {} && Run(w, es, w')
    ensures |w'.ins| + w'.q.free + |w'.holding.Keys| == |w.ins| + w.q.free + |w.holding.Keys|
    decreases |es|
  {
    if es != [] {
      StepWithoutMaximum(w, es[0]);
      WithoutMaximumOnlyInitialTokens(Next(w, es[0]), es[1..], w');
    }
  }
}
