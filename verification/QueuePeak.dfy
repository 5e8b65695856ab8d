/** How full a bounded GenQueue can get: the exact maximum over all interleavings, for every maximum
    length and all sets of threads. */
module QueuePeak {
  import opened GenQueue

  /** The most objects, or objects and free tokens together, that any interleaving leads to. */
  ghost function Peak<T>(w: World<T>): int {
    if w.adders == {} then w.q.max
    else if w.takers == {} then 2 * w.q.max
    else 2 * w.q.max + |w.adders| - 1 + |w.takers|
  }

  // ---- It is a bound ----

  /** Without takers nothing is ever taken out, so add appends at once `max` times at most. */
  lemma {:induction false} NoTakers<T>(w: World<T>, es: seq<Event<T>>, w': World<T>)
    requires w.Valid() && w.q.max > 0 && w.takers == {} && Run(w, es, w')
    requires w.Load() <= w.q.max + (if w.q.count < w.q.max then w.q.count else w.q.max)
    ensures w'.q.count + w'.q.free <= 2 * w.q.max
    decreases |es|
  {
    if es != [] {
      StepLoad(w, es[0]);
      ThreadsStay(w, es[0]);
      CountWithoutTakers(w, es[0]);
      NoTakers(Next(w, es[0]), es[1..], w');
    }
  }

  lemma CountWithoutTakers<T>(w: World<T>, e: Event<T>)
    requires w.Valid() && Enabled(w, e) && w.takers == {}
    ensures Next(w, e).q.count >= w.q.count + (if AppendsAtOnce(w, e) then 1 else 0)
  {
  }

  /** Without adders nothing gets in. */
  lemma {:induction false} NoAdders<T>(w: World<T>, es: seq<Event<T>>, w': World<T>)
    requires w.Valid() && w.q.max > 0 && w.adders == {} && Run(w, es, w')
    ensures w'.q.count + w'.q.free <= w.Load()
    decreases |es|
  {
    if es != [] {
      StepLoad(w, es[0]);
      ThreadsStay(w, es[0]);
      NoAdders(Next(w, es[0]), es[1..], w');
    }
  }

  lemma PeakIsBound<T>(w: World<T>, es: seq<Event<T>>, w': World<T>)
    requires w.Valid() && Initial(w) && w.q.max > 0 && Run(w, es, w')
    ensures w'.q.count + w'.q.free <= Peak(w)
  {
    hide Run, Next;
    assert w.holding.Keys == {} && w.Load() == w.q.max;
    if w.adders == {} {
      NoAdders(w, es, w');
    } else if w.takers == {} {
      NoTakers(w, es, w');
    } else {
      GeneralBound(w, es, w');
    }
  }

  // ---- It is reached ----

  /** A run leads there in which at most `s` tokens were on their way whenever add appended at
      once. */
  ghost predicate Reaches<T(!new)>(w: World<T>, w': World<T>, s: nat) {
    w.Valid() && w'.Valid() && exists es :: Run(w, es, w') && Disturbed(w, es, s)
  }

  lemma ReachesSelf<T(!new)>(w: World<T>, s: nat)
    requires w.Valid()
    ensures Reaches(w, w, s)
  {
    assert Run(w, [], w) && Disturbed(w, [], s);
  }

  lemma {:induction false} DisturbedJoin<T>(w: World<T>, es: seq<Event<T>>, m: World<T>, e: Event<T>, s: nat)
    requires w.Valid() && m.Valid() && Run(w, es, m) && Disturbed(w, es, s) && Enabled(m, e)
    requires AppendsAtOnce(m, e) ==> |m.holding.Keys| + |m.releasing| <= s
    ensures Disturbed(w, es + [e], s)
    decreases |es|
  {
    if es == [] {
      assert es + [e] == [e] && Disturbed(Next(m, e), [e][1..], s);
    } else {
      assert (es + [e])[1..] == es[1..] + [e];
      DisturbedJoin(Next(w, es[0]), es[1..], m, e, s);
    }
  }

  lemma Extend<T(!new)>(w: World<T>, m: World<T>, e: Event<T>, s: nat)
    requires Reaches(w, m, s) && Enabled(m, e)
    requires AppendsAtOnce(m, e) ==> |m.holding.Keys| + |m.releasing| <= s
    ensures Reaches(w, Next(m, e), s)
  {
    var es :| Run(w, es, m) && Disturbed(w, es, s);
    assert Run(Next(m, e), [], Next(m, e));
    Prepend(m, e, [], Next(m, e));
    assert [e] + [] == [e];
    RunsJoin(w, es, m, [e], Next(m, e));
    DisturbedJoin(w, es, m, e, s);
    assert Run(w, es + [e], Next(m, e)) && Disturbed(w, es + [e], s);
  }

  /** A state between the calls of add: which adders hold a token, which takers have not posted
      theirs, and what is queued and free. */
  ghost predicate At<T>(w0: World<T>, w: World<T>, count: int, free: int, held: set<nat>, releasing: set<nat>) {
    && w.Valid() && w.q.max == w0.q.max && w.adders == w0.adders && w.takers == w0.takers
    && w.q.count == count && w.q.free == free
    && w.holding.Keys == held && w.releasing == releasing && w.waiting == map[] && w.posting == {}
  }

  lemma AppendNow<T(!new)>(w0: World<T>, w: World<T>, s: nat, c: int, f: int, held: set<nat>, rel: set<nat>,
                           b: nat, x: T)
    returns (w': World<T>)
    requires Reaches(w0, w, s) && At(w0, w, c, f, held, rel) && c < w0.q.max && b in w0.adders && b !in held
    requires |held| + |rel| <= s
    ensures Reaches(w0, w', s) && At(w0, w', c + 1, f, held, rel)
  {
    hide Reaches;
    var w1 := Next(w, Begin(b, x));
    Extend(w0, w, Begin(b, x), s);
    w' := Next(w1, Post(b));
    Extend(w0, w1, Post(b), s);
  }

  lemma WaitTake<T(!new)>(w0: World<T>, w: World<T>, s: nat, c: int, f: int, held: set<nat>, rel: set<nat>,
                          a: nat, x: T)
    returns (w': World<T>)
    requires Reaches(w0, w, s) && At(w0, w, c, f, held, rel)
    requires c >= w0.q.max && f > 0 && a in w0.adders && a !in held
    ensures Reaches(w0, w', s) && At(w0, w', c, f - 1, held + {a}, rel)
  {
    hide Reaches;
    var w1 := Next(w, Begin(a, x));
    Extend(w0, w, Begin(a, x), s);
    w' := Next(w1, Take(a));
    Extend(w0, w1, Take(a), s);
  }

  lemma GoOn<T(!new)>(w0: World<T>, w: World<T>, s: nat, c: int, f: int, held: set<nat>, rel: set<nat>, a: nat)
    returns (w': World<T>)
    requires Reaches(w0, w, s) && At(w0, w, c, f, held, rel) && w0.q.max > 0 && a in held
    ensures Reaches(w0, w', s) && At(w0, w', c + 1, f, held - {a}, rel)
  {
    hide Reaches;
    var w1 := Next(w, Resume(a));
    Extend(w0, w, Resume(a), s);
    w' := Next(w1, Post(a));
    Extend(w0, w1, Post(a), s);
  }

  lemma PopOne<T(!new)>(w0: World<T>, w: World<T>, s: nat, c: int, f: int, held: set<nat>, rel: set<nat>, t: nat)
    returns (w': World<T>)
    requires Reaches(w0, w, s) && At(w0, w, c, f, held, rel)
    requires w0.q.max > 0 && c > 0 && t in w0.takers && t !in rel
    ensures Reaches(w0, w', s) && At(w0, w', c - 1, f, held, rel + {t})
  {
    hide Reaches;
    w' := Next(w, Pop(t));
    Extend(w0, w, Pop(t), s);
  }

  lemma GiveBack<T(!new)>(w0: World<T>, w: World<T>, s: nat, c: int, f: int, held: set<nat>, rel: set<nat>, t: nat)
    returns (w': World<T>)
    requires Reaches(w0, w, s) && At(w0, w, c, f, held, rel) && t in rel && f < w0.q.max
    ensures Reaches(w0, w', s) && At(w0, w', c, f + 1, held, rel - {t})
  {
    hide Reaches;
    w' := Next(w, Release(t));
    Extend(w0, w, Release(t), s);
  }

  /** One adder fills the queue up to the maximum. */
  lemma {:induction false} Fill<T(!new)>(w0: World<T>, w: World<T>, s: nat, c: int, f: int, b: nat, x: T)
    returns (w': World<T>)
    requires Reaches(w0, w, s) && At(w0, w, c, f, {}, {}) && c <= w0.q.max && b in w0.adders
    ensures Reaches(w0, w', s) && At(w0, w', w0.q.max, f, {}, {})
    decreases w0.q.max - c
  {
    hide At, Reaches;
    w' := w;
    if c < w0.q.max {
      w' := AppendNow(w0, w, s, c, f, {}, {}, b, x);
      w' := Fill(w0, w', s, c + 1, f, b, x);
    }
  }

  /** Adders other than `b` take a token each; a taker and `b` restore tokens and objects. */
  lemma {:induction false} HoldAll<T(!new)>(w0: World<T>, w: World<T>, s: nat, held: set<nat>, todo: set<nat>,
                                            b: nat, t: nat, x: T)
    returns (w': World<T>)
    requires w0.q.max > 0 && Reaches(w0, w, s) && At(w0, w, w0.q.max, w0.q.max, held, {})
    requires todo <= w0.adders && todo !! held && b in w0.adders && b !in held + todo && t in w0.takers
    requires |held| + |todo| <= s
    ensures Reaches(w0, w', s) && At(w0, w', w0.q.max, w0.q.max, held + todo, {})
    decreases |todo|
  {
    hide At, Reaches;
    w' := w;
    if todo == {} {
      assert held + todo == held;
    } else {
      var a :| a in todo;
      var m := w0.q.max;
      w' := WaitTake(w0, w', s, m, m, held, {}, a, x);
      w' := PopOne(w0, w', s, m, m - 1, held + {a}, {}, t);
      assert {} + {t} == {t} && {t} - {t} == {};
      w' := GiveBack(w0, w', s, m - 1, m - 1, held + {a}, {t}, t);
      w' := AppendNow(w0, w', s, m - 1, m, held + {a}, {}, b, x);
      w' := HoldAll(w0, w', s, held + {a}, todo - {a}, b, t, x);
      assert held + {a} + (todo - {a}) == held + todo;
    }
  }

  /** Takers pop one object each; `b` replaces it before the token comes back. */
  lemma {:induction false} PopAll<T(!new)>(w0: World<T>, w: World<T>, s: nat, held: set<nat>, rel: set<nat>,
                                           todo: set<nat>, b: nat, x: T)
    returns (w': World<T>)
    requires w0.q.max > 0 && Reaches(w0, w, s) && At(w0, w, w0.q.max, w0.q.max, held, rel)
    requires todo <= w0.takers && todo !! rel && b in w0.adders && b !in held
    requires |held| + |rel| + |todo| <= s
    ensures Reaches(w0, w', s) && At(w0, w', w0.q.max, w0.q.max, held, rel + todo)
    decreases |todo|
  {
    hide At, Reaches;
    w' := w;
    if todo == {} {
      assert rel + todo == rel;
    } else {
      var t :| t in todo;
      var m := w0.q.max;
      w' := PopOne(w0, w', s, m, m, held, rel, t);
      w' := AppendNow(w0, w', s, m - 1, m, held, rel + {t}, b, x);
      w' := PopAll(w0, w', s, held, rel + {t}, todo - {t}, b, x);
      assert rel + {t} + (todo - {t}) == rel + todo;
    }
  }

  /** All adders with a token append. */
  lemma {:induction false} GoOnAll<T(!new)>(w0: World<T>, w: World<T>, s: nat, c: int, f: int, held: set<nat>,
                                            rel: set<nat>)
    returns (w': World<T>)
    requires w0.q.max > 0 && Reaches(w0, w, s) && At(w0, w, c, f, held, rel)
    ensures Reaches(w0, w', s) && At(w0, w', c + |held|, f, {}, rel)
    decreases |held|
  {
    hide At, Reaches;
    w' := w;
    if held != {} {
      var a :| a in held;
      w' := GoOn(w0, w', s, c, f, held, rel, a);
      w' := GoOnAll(w0, w', s, c + 1, f, held - {a}, rel);
    }
  }

  /** Each late token comes back while `b` uses another one. */
  lemma {:induction false} GiveAll<T(!new)>(w0: World<T>, w: World<T>, s: nat, c: int, rel: set<nat>, b: nat, x: T)
    returns (w': World<T>)
    requires w0.q.max > 0 && Reaches(w0, w, s) && At(w0, w, c, w0.q.max, {}, rel) && c >= w0.q.max && b in w0.adders
    ensures Reaches(w0, w', s) && At(w0, w', c + |rel|, w0.q.max, {}, {})
    decreases |rel|
  {
    hide At, Reaches;
    w' := w;
    if rel != {} {
      var t :| t in rel;
      w' := GiveOne(w0, w', s, c, rel, b, t, x);
      w' := GiveAll(w0, w', s, c + 1, rel - {t}, b, x);
    }
  }

  lemma GiveOne<T(!new)>(w0: World<T>, w: World<T>, s: nat, c: int, rel: set<nat>, b: nat, t: nat, x: T)
    returns (w': World<T>)
    requires w0.q.max > 0 && Reaches(w0, w, s) && At(w0, w, c, w0.q.max, {}, rel) && c >= w0.q.max
    requires b in w0.adders && t in rel
    ensures Reaches(w0, w', s) && At(w0, w', c + 1, w0.q.max, {}, rel - {t})
  {
    hide At, Reaches;
    var m := w0.q.max;
    w' := WaitTake(w0, w, s, c, m, {}, rel, b, x);
    w' := GiveBack(w0, w', s, c, m - 1, {} + {b}, rel, t);
    w' := GoOn(w0, w', s, c, m, {} + {b}, rel - {t}, b);
    assert {} + {b} - {b} == {};
  }

  /** `b` turns the free tokens into objects. */
  lemma {:induction false} Drain<T(!new)>(w0: World<T>, w: World<T>, s: nat, c: int, f: int, b: nat, x: T)
    returns (w': World<T>)
    requires w0.q.max > 0 && Reaches(w0, w, s) && At(w0, w, c, f, {}, {}) && c >= w0.q.max && f >= 0 && b in w0.adders
    ensures Reaches(w0, w', s) && At(w0, w', c + f, 0, {}, {})
    decreases f
  {
    hide At, Reaches;
    w' := w;
    if f > 0 {
      w' := WaitTake(w0, w', s, c, f, {}, {}, b, x);
      assert {} + {b} == {b} && {b} - {b} == {};
      w' := GoOn(w0, w', s, c, f - 1, {b}, {}, b);
      w' := Drain(w0, w', s, c + 1, f - 1, b, x);
    }
  }

  lemma AtStart<T(!new)>(w: World<T>, s: nat)
    requires w.Valid() && Initial(w) && w.q.max > 0
    ensures Reaches(w, w, s) && At(w, w, 0, w.q.max, {}, {})
  {
    ReachesSelf(w, s);
  }

  /** Some adders hold their tokens and some takers theirs back, while adder `b` appends at once;
      in the end everything that was held back is queued. */
  lemma HoldBack<T(!new)>(w: World<T>, x: T, b: nat, hold: set<nat>, back: set<nat>) returns (w': World<T>)
    requires w.Valid() && Initial(w) && w.q.max > 0 && b in w.adders
    requires hold <= w.adders - {b} && back <= w.takers && (hold != {} ==> w.takers != {})
    ensures var s := |hold| + |back|;
      Reaches(w, w', s) && w'.q.count == 2 * w.q.max + s && w'.q.free == 0
  {
    hide At, Reaches, Initial;
    var m, s := w.q.max, |hold| + |back|;
    AtStart(w, s);
    w' := Fill(w, w, s, 0, m, b, x);
    if w.takers != {} {
      w' := Exchange(w, w', s, b, hold, back, x);
    } else {
      assert hold == {} && back == {} && s == 0;
    }
    w' := Drain(w, w', s, m + s, m, b, x);
    AtCounts(w, w', m + s + m, 0);
  }

  lemma AtCounts<T>(w0: World<T>, w: World<T>, c: int, f: int)
    requires At(w0, w, c, f, {}, {})
    ensures w.q.count == c && w.q.free == f
  {
  }

  lemma Exchange<T(!new)>(w0: World<T>, w: World<T>, s: nat, b: nat, hold: set<nat>, back: set<nat>, x: T)
    returns (w': World<T>)
    requires w0.q.max > 0 && Reaches(w0, w, s) && At(w0, w, w0.q.max, w0.q.max, {}, {})
    requires b in w0.adders && hold <= w0.adders - {b} && back <= w0.takers && w0.takers != {}
    requires |hold| + |back| <= s
    ensures Reaches(w0, w', s) && At(w0, w', w0.q.max + |hold| + |back|, w0.q.max, {}, {})
  {
    hide At, Reaches;
    var m := w0.q.max;
    var t :| t in w0.takers;
    assert {} + hold == hold && {} + back == back;
    w' := HoldAll(w0, w, s, {}, hold, b, t, x);
    w' := PopAll(w0, w', s, hold, {}, back, b, x);
    w' := GoOnAll(w0, w', s, m, m, hold, back);
    w' := GiveAll(w0, w', s, m + |hold|, back, b, x);
  }

  lemma {:induction false} SubsetOfSize(all: set<nat>, n: nat) returns (part: set<nat>)
    requires n <= |all|
    ensures part <= all && |part| == n
  {
    part := all;
    if n < |all| {
      var x :| x in all;
      part := SubsetOfSize(all - {x}, n);
    }
  }

  /** Twice the maximum plus the tokens on their way is exact: no run with at most `s` of them ends
      with more objects and tokens, and some such run ends with that many objects, for every `s`
      the threads can bring about. */
  lemma SlackIsExact<T(!new)>(w: World<T>, x: T, s: nat)
    requires w.Valid() && Initial(w) && w.q.max > 0 && w.adders != {}
    requires s == 0 || (w.takers != {} && s <= |w.adders| - 1 + |w.takers|)
    ensures forall es, w' :: Run(w, es, w') && Disturbed(w, es, s) ==> w'.q.count + w'.q.free <= 2 * w.q.max + s
    ensures exists es, w' :: Run(w, es, w') && Disturbed(w, es, s) && w'.q.count == 2 * w.q.max + s
  {
    assert w.holding.Keys == {} && w.Load() == w.q.max;
    hide Run, Disturbed, Initial;
    forall es, w' | Run(w, es, w') && Disturbed(w, es, s)
      ensures w'.q.count + w'.q.free <= 2 * w.q.max + s
    {
      LoadIsBounded(w, es, w', s);
    }
    SlackIsReached(w, x, s);
  }

  lemma SlackIsReached<T(!new)>(w: World<T>, x: T, s: nat)
    requires w.Valid() && Initial(w) && w.q.max > 0 && w.adders != {}
    requires s == 0 || (w.takers != {} && s <= |w.adders| - 1 + |w.takers|)
    ensures exists es, w' :: Run(w, es, w') && Disturbed(w, es, s) && w'.q.count == 2 * w.q.max + s
  {
    hide Run, Disturbed, Initial;
    var b :| b in w.adders;
    var others := w.adders - {b};
    assert |others| == |w.adders| - 1;
    var hold := SubsetOfSize(others, if s <= |others| then s else |others|);
    var back := SubsetOfSize(w.takers, s - |hold|);
    var w' := HoldBack(w, x, b, hold, back);
  }

  /** With an adder, some run queues as many objects as the peak says. */
  lemma PeakIsReached<T(!new)>(w: World<T>, x: T)
    requires w.Valid() && Initial(w) && w.q.max > 0 && w.adders != {}
    ensures exists es, w' :: Run(w, es, w') && w'.q.count == Peak(w)
  {
    hide Run, Disturbed, Initial;
    SlackIsExact(w, x, if w.takers == {} then 0 else |w.adders| - 1 + |w.takers|);
  }

  // ---- The claim about twice the maximum ----

  ghost predicate TwiceTheMaximumHolds<T(!new)>(w: World<T>)
    requires w.Valid()
  {
    forall es, w' :: Run(w, es, w') ==> w'.q.count + w'.q.free <= 2 * w.q.max
  }

  ghost predicate TwiceTheMaximumQueued<T(!new)>(w: World<T>)
    requires w.Valid()
  {
    forall es, w' :: Run(w, es, w') ==> w'.q.count <= 2 * w.q.max
  }

  /** Whatever the maximum, one adder and one taker suffice to queue more than twice as much: the
      taker pops but has not posted its token yet when the adder finds room. */
  lemma TwiceTheMaximumCanBeExceeded<T(!new)>(w: World<T>, x: T)
    requires w.Valid() && Initial(w) && w.q.max > 0 && w.adders != {} && w.takers != {}
    ensures exists es, w' :: Run(w, es, w') && w'.q.count > 2 * w.q.max
  {
    hide Run, Initial;
    PeakIsReached(w, x);
    assert |w.adders| > 0 && |w.takers| > 0;
    var es, w' :| Run(w, es, w') && w'.q.count == Peak(w);
  }

  /** Objects and tokens, and objects alone, stay within twice the maximum in every interleaving
      exactly if nobody takes objects out, or nobody puts any in. */
  lemma TwiceTheMaximumHoldsIff<T(!new)>(w: World<T>, x: T)
    requires w.Valid() && Initial(w) && w.q.max > 0
    ensures TwiceTheMaximumHolds(w) <==> w.takers == {} || w.adders == {}
    ensures TwiceTheMaximumQueued(w) <==> w.takers == {} || w.adders == {}
  {
    hide Run, Initial;
    forall es, w' | Run(w, es, w')
      ensures w'.q.count + w'.q.free <= Peak(w)
    {
      PeakIsBound(w, es, w');
    }
    if w.takers != {} && w.adders != {} {
      TwiceTheMaximumCanBeExceeded(w, x);
    }
  }
}
