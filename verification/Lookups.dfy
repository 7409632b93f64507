/**
 How the lookups of remote state are put together: a list of reads, and then a lookup chosen by their answers.
 What such a lookup yields, reads and finds in one instant follows from its parts.
 */
module Lookups {
  import opened Snapshots
  import opened Wrappers

  function Return<Q, F, R>(result: R): Procedure<Q, F, R> {
    (facts: seq<F>) => if |facts| == 0 then Done(result) else Stop
  }

  function Refuse<Q, F, R>(): Procedure<Q, F, R> {
    (facts: seq<F>) => Stop
  }

  /** Reads all the queries in turn and goes on as their answers say. */
  function Reading<Q, F, R>(queries: seq<Q>, next: seq<F> -> Procedure<Q, F, R>): Procedure<Q, F, R> {
    (facts: seq<F>) =>
      if |facts| < |queries| then Get(queries[|facts|]) else next(facts[..|queries|])(facts[|queries|..])
  }

  /** After the first `k` of the facts `f`, the lookup is the lookup `rest` of what follows. */
  ghost predicate GoesOn<Q, F, R>(p: Procedure<Q, F, R>, f: seq<F>, rest: Procedure<Q, F, R>, k: nat) {
    k <= |f| && forall j :: k <= j <= |f| ==> p(f[..j]) == rest(f[k..][..j - k])
  }

  lemma ReadingGoesOn<Q, F, R>(queries: seq<Q>, next: seq<F> -> Procedure<Q, F, R>, f: seq<F>)
    requires |queries| <= |f|
    ensures GoesOn(Reading(queries, next), f, next(f[..|queries|]), |queries|)
  {
    var n := |queries|;
    forall j | n <= j <= |f|
      ensures Reading(queries, next)(f[..j]) == next(f[..n])(f[n..][..j - n])
    {
      assert f[..j][..n] == f[..n] && f[..j][n..] == f[n..][..j - n];
    }
  }

  lemma GoesOnFurther<Q, F, R>(
    p: Procedure<Q, F, R>, f: seq<F>, rest: Procedure<Q, F, R>, k: nat, last: Procedure<Q, F, R>, m: nat)
    requires GoesOn(p, f, rest, k) && GoesOn(rest, f[k..], last, m)
    ensures GoesOn(p, f, last, k + m)
  {
    forall j | k + m <= j <= |f|
      ensures p(f[..j]) == last(f[k + m..][..j - (k + m)])
    {
      assert f[k..][m..] == f[k + m..];
      assert p(f[..j]) == rest(f[k..][..j - k]) == last(f[k..][m..][..j - k - m]);
    }
  }

  /** What the rest reads is read, and what it yields is yielded. */
  lemma GoesOnReads<Q, F, R>(p: Procedure<Q, F, R>, f: seq<F>, rest: Procedure<Q, F, R>, k: nat)
    requires GoesOn(p, f, rest, k)
    ensures forall q, fact :: Reads(rest, f[k..], q, fact) ==> Reads(p, f, q, fact)
    ensures forall result :: Yields(p, f, result) ==> Yields(rest, f[k..], result)
  {
    var tail := f[k..];
    assert f[..|f|] == f && tail[..|tail|] == tail;
    assert p(f) == rest(tail);
    forall i | 0 <= i < |tail|
      ensures p(f[..k + i]) == rest(tail[..i]) && f[k + i] == tail[i]
    {
    }
    forall q, fact | Reads(rest, tail, q, fact)
      ensures Reads(p, f, q, fact)
    {
      var i :| 0 <= i < |tail| && rest(tail[..i]) == Get(q) && tail[i] == fact;
      assert p(f[..k + i]) == Get(q) && f[k + i] == fact;
    }
  }

  /** A finished reading has all its answers, and they are what it read. */
  lemma ReadingReads<Q, F, R>(queries: seq<Q>, next: seq<F> -> Procedure<Q, F, R>, f: seq<F>, result: R)
    requires Yields(Reading(queries, next), f, result)
    ensures |f| >= |queries| && GoesOn(Reading(queries, next), f, next(f[..|queries|]), |queries|)
    ensures forall k :: 0 <= k < |queries| ==> Reads(Reading(queries, next), f, queries[k], f[k])
    ensures forall q, fact :: Reads(next(f[..|queries|]), f[|queries|..], q, fact) ==> Reads(Reading(queries, next), f, q, fact)
    ensures Yields(next(f[..|queries|]), f[|queries|..], result)
  {
    var p := Reading(queries, next);
    ReadingGoesOn(queries, next, f);
    GoesOnReads(p, f, next(f[..|queries|]), |queries|);
    forall k | 0 <= k < |queries|
      ensures Reads(p, f, queries[k], f[k])
    {
      assert p(f[..k]) == Get(queries[k]);
    }
  }

  lemma StartsAsItself<Q, F, R>(p: Procedure<Q, F, R>, f: seq<F>)
    ensures GoesOn(p, f, p, 0)
  {
    assert forall j :: 0 <= j <= |f| ==> f[0..][..j - 0] == f[..j];
  }

  /** One more list of reads in the middle of a finished lookup. */
  lemma ReadingFurther<Q, F, R>(
    p: Procedure<Q, F, R>, f: seq<F>, k: nat, queries: seq<Q>, next: seq<F> -> Procedure<Q, F, R>, result: R)
    requires Yields(p, f, result) && GoesOn(p, f, Reading(queries, next), k)
    ensures k + |queries| <= |f| && GoesOn(p, f, next(f[k..k + |queries|]), k + |queries|)
    ensures forall i :: 0 <= i < |queries| ==> Reads(p, f, queries[i], f[k + i])
    ensures Yields(next(f[k..k + |queries|]), f[k + |queries|..], result) && next(f[k..k + |queries|]) != Refuse()
  {
    var tail, n := f[k..], |queries|;
    GoesOnReads(p, f, Reading(queries, next), k);
    ReadingReads(queries, next, tail, result);
    GoesOnFurther(p, f, Reading(queries, next), k, next(tail[..n]), n);
    assert tail[..n] == f[k..k + n] && tail[n..] == f[k + n..];
    assert forall i :: 0 <= i < n ==> tail[i] == f[k + i];
    RefuseYieldsNothing<Q, F, R>(tail[n..], result);
  }

  /** In one instant the queries have one list of answers, and the lookup yields what it goes on to yield. */
  lemma ReadingHolds<Q, F(!new), R>(
    env: History<Q, F>, queries: seq<Q>, next: seq<F> -> Procedure<Q, F, R>, t: nat, answers: seq<F>, result: R)
    requires |answers| == |queries| && forall k :: 0 <= k < |queries| ==> env(t, queries[k]) == Some(answers[k])
    ensures Holds(env, Reading(queries, next), t, result) <==> Holds(env, next(answers), t, result)
  {
    var p, n, rest := Reading(queries, next), |queries|, next(answers);
    if Holds(env, p, t, result) {
      var f :| p(f) == Done(result) && HoldsWith(env, p, t, f);
      HeldReadingStartsWith(env, queries, next, t, f);
      assert f[..n] == answers;
      var tail := f[n..];
      forall k | 0 <= k < |tail|
        ensures ReadAt(env, rest, tail, k, t)
      {
        assert ReadAt(env, p, f, n + k, t) && f[..n + k][n..] == tail[..k] && f[..n + k][..n] == answers;
      }
      assert rest(tail) == Done(result) && HoldsWith(env, rest, t, tail);
    }
    if Holds(env, rest, t, result) {
      var tail :| rest(tail) == Done(result) && HoldsWith(env, rest, t, tail);
      var f := answers + tail;
      assert f[..n] == answers && f[n..] == tail;
      forall k | 0 <= k < |f|
        ensures ReadAt(env, p, f, k, t)
      {
        if k >= n {
          assert f[..k][..n] == answers && f[..k][n..] == tail[..k - n];
          assert ReadAt(env, rest, tail, k - n, t);
        }
      }
      assert p(f) == Done(result) && HoldsWith(env, p, t, f);
    }
  }

  lemma HeldReadingStartsWith<Q, F, R>(
    env: History<Q, F>, queries: seq<Q>, next: seq<F> -> Procedure<Q, F, R>, t: nat, f: seq<F>)
    requires Reading(queries, next)(f).Done? && HoldsWith(env, Reading(queries, next), t, f)
    ensures |f| >= |queries| && forall k :: 0 <= k < |queries| ==> env(t, queries[k]) == Some(f[k])
  {
    forall k | 0 <= k < |queries|
      ensures env(t, queries[k]) == Some(f[k])
    {
      assert ReadAt(env, Reading(queries, next), f, k, t);
    }
  }

  /** While some query has no answer, the lookup yields nothing. */
  lemma ReadingNeedsAnswers<Q, F(!new), R>(
    env: History<Q, F>, queries: seq<Q>, next: seq<F> -> Procedure<Q, F, R>, t: nat, k: nat, result: R)
    requires k < |queries| && env(t, queries[k]) == None
    ensures !Holds(env, Reading(queries, next), t, result)
  {
    if Holds(env, Reading(queries, next), t, result) {
      var f :| Reading(queries, next)(f) == Done(result) && HoldsWith(env, Reading(queries, next), t, f);
      HeldReadingStartsWith(env, queries, next, t, f);
      assert false;
    }
  }

  lemma ReturnYields<Q, F, R>(value: R, f: seq<F>, result: R)
    requires Yields<Q, F, R>(Return(value), f, result)
    ensures result == value && f == []
  {
  }

  lemma RefuseYieldsNothing<Q, F, R>(f: seq<F>, result: R)
    ensures !Yields<Q, F, R>(Refuse(), f, result)
  {
  }

  /** What a lookup would yield in one instant is yielded by a run that reads what is so in that instant. */
  lemma HeldIsRead<Q(!new), F(!new), R>(env: History<Q, F>, p: Procedure<Q, F, R>, t: nat, result: R) returns (f: seq<F>)
    requires Holds(env, p, t, result)
    ensures Yields(p, f, result) && forall q, fact :: Reads(p, f, q, fact) ==> env(t, q) == Some(fact)
  {
    f :| p(f) == Done(result) && HoldsWith(env, p, t, f);
    forall k | 0 <= k < |f|
      ensures p(f[..k]).Get? && env(t, p(f[..k]).query) == Some(f[k])
    {
      assert ReadAt(env, p, f, k, t);
    }
  }

  lemma ReturnHolds<Q, F(!new), R>(env: History<Q, F>, t: nat, value: R, result: R)
    ensures Holds(env, Return(value), t, result) <==> result == value
  {
    var p: Procedure<Q, F, R> := Return(value);
    var none: seq<F> := [];
    assert HoldsWith(env, p, t, none) && p(none) == Done(value);
  }

  lemma RefusedNeverHolds<Q, F(!new), R>(env: History<Q, F>, t: nat, result: R)
    ensures !Holds(env, Refuse(), t, result)
  {
  }

  lemma ReadingIsBounded<Q, F(!new), R>(queries: seq<Q>, next: seq<F> -> Procedure<Q, F, R>, n: nat)
    requires forall facts :: |facts| == |queries| ==> Bounded(next(facts), n)
    ensures Bounded(Reading(queries, next), |queries| + n)
  {
  }

  /** A result that is shown was yielded by some run, whose answers are otherwise unknown. */
  lemma ShownWasYielded<Q(!new), F(!new), R>(env: History<Q, F>, p: Procedure<Q, F, R>, t: nat, result: R, q: Q, x: F, y: F)
    requires Shown(env, p, t, result) && x != y
    ensures exists f :: Yields(p, f, result)
  {
    if !exists f :: Yields(p, f, result) {
      assert Fixed(p, result, q, x) && Fixed(p, result, q, y);
      assert false;
    }
  }

  // ----- two states of the world -----

  /** One state of all that can be asked. */
  type State<!Q, !F> = Q -> Option<F>

  /** The history in which nothing ever changes. */
  function Always<Q, F>(state: State<Q, F>): History<Q, F> {
    (t: nat, q: Q) => state(q)
  }

  /** One state before `at`, another one after it; at `at` itself only what both have in common is answered. */
  function Switched<Q, F(==)>(before: State<Q, F>, after: State<Q, F>, at: nat): History<Q, F> {
    (t: nat, q: Q) =>
      if t < at then before(q) else if t > at then after(q) else if before(q) == after(q) then before(q) else None
  }

  lemma StateIsRead<Q, F(!new), R>(state: State<Q, F>, p: Procedure<Q, F, R>, result: R) returns (facts: seq<F>)
    requires Holds(Always(state), p, 0, result)
    ensures Yields(p, facts, result)
    ensures forall k :: 0 <= k < |facts| ==> state(p(facts[..k]).query) == Some(facts[k])
  {
    var env := Always(state);
    facts :| p(facts) == Done(result) && HoldsWith(env, p, 0, facts);
    forall k | 0 <= k < |facts|
      ensures p(facts[..k]).Get? && state(p(facts[..k]).query) == Some(facts[k])
    {
      assert ReadAt(env, p, facts, k, 0);
    }
  }

  /** When both states give the same result, a run before the switch and a run after it agree. */
  lemma SwitchAgrees<Q(!new), F(!new), R>(
    before: State<Q, F>, after: State<Q, F>, p: Procedure<Q, F, R>, result: R) returns (f: seq<F>, g: seq<F>)
    requires Holds(Always(before), p, 0, result) && Holds(Always(after), p, 0, result)
    ensures Yields(p, f, result)
    ensures Agree(Switched(before, after, |f|), p, f, Times(0, |f|), g, Times(|f| + 1, |g|), result, 0, |f|, |f| + |g| + 1)
  {
    f := StateIsRead(before, p, result);
    g := StateIsRead(after, p, result);
    var env, times, again := Switched(before, after, |f|), Times(0, |f|), Times(|f| + 1, |g|);
    forall k | 0 <= k < |f|
      ensures ReadAt(env, p, f, k, times[k])
    {
    }
    forall k | 0 <= k < |g|
      ensures ReadAt(env, p, g, k, again[k])
    {
    }
    assert Steady(env, 0, |f| + |g| + 1);
  }

  /** Then an answer that the states do not share is not fixed by that result. */
  lemma SwitchedIsNotFixed<Q(!new), F(!new), R>(
    before: State<Q, F>, after: State<Q, F>, p: Procedure<Q, F, R>, result: R, q: Q, fact: F)
    requires Holds(Always(before), p, 0, result) && Holds(Always(after), p, 0, result) && before(q) != after(q)
    ensures !Fixed(p, result, q, fact)
  {
    var f, g := SwitchAgrees(before, after, p, result);
    FixedIsGuaranteed(p, result, q, fact);
    assert Switched(before, after, |f|)(|f|, q) == None;
  }
}
