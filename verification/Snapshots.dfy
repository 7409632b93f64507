/**
 Repeated reads of changing remote state. A procedure is a chain of dependent reads; other actors may change
 what any query answers between two reads. Reading everything once more, and finding the same results, fixes
 an instant at which all of it held together, provided that a changed value did not change back in between.
 */
module Snapshots {
  import opened Wrappers

  /** What each query would answer at each time; nothing when the answer would be refused. */
  type History<!Q, !F> = (nat, Q) -> Option<F>

  /** The next move of a procedure, decided by the facts it has read so far. */
  datatype Step<+Q, +R> = Get(query: Q) | Done(result: R) | Stop

  type Procedure<!Q, !F, !R> = seq<F> -> Step<Q, R>

  ghost predicate Bounded<Q, F(!new), R>(p: Procedure<Q, F, R>, n: nat) {
    forall facts :: |facts| >= n ==> !p(facts).Get?
  }

  /** The k-th read of the procedure, made at time `t`, would answer the k-th fact. */
  ghost predicate ReadAt<Q, F, R>(env: History<Q, F>, p: Procedure<Q, F, R>, facts: seq<F>, k: nat, t: nat)
    requires k < |facts|
  {
    p(facts[..k]).Get? && env(t, p(facts[..k]).query) == Some(facts[k])
  }

  /** A run of the procedure whose k-th read happened at the k-th time. */
  ghost predicate IsRun<Q, F, R>(env: History<Q, F>, p: Procedure<Q, F, R>, facts: seq<F>, times: seq<nat>, result: R) {
    && |times| == |facts|
    && p(facts) == Done(result)
    && forall k :: 0 <= k < |facts| ==> ReadAt(env, p, facts, k, times[k])
  }

  /** Times in order, none before `lo` or after `hi`. */
  ghost predicate Within(times: seq<nat>, lo: nat, hi: nat) {
    && (forall k :: 0 <= k < |times| ==> lo <= times[k] <= hi)
    && forall i, j :: 0 <= i < j < |times| ==> times[i] <= times[j]
  }

  /** All the reads, made in the one instant `t`, would answer these facts. */
  ghost predicate HoldsWith<Q, F, R>(env: History<Q, F>, p: Procedure<Q, F, R>, t: nat, facts: seq<F>) {
    forall k :: 0 <= k < |facts| ==> ReadAt(env, p, facts, k, t)
  }

  /** Run in the one instant `t`, the procedure would yield the result. */
  ghost predicate Holds<Q, F(!new), R>(env: History<Q, F>, p: Procedure<Q, F, R>, t: nat, result: R) {
    exists facts :: p(facts) == Done(result) && HoldsWith(env, p, t, facts)
  }

  /** Between two times at which a query answers the same fact, it answers that fact. */
  ghost predicate Steady<Q(!new), F>(env: History<Q, F>, lo: nat, hi: nat) {
    forall q, i, j, k :: lo <= i <= j <= k <= hi && env(i, q).Some? && env(i, q) == env(k, q) ==> env(j, q) == env(i, q)
  }

  /** No query changes its answer. */
  ghost predicate Still<Q(!new), F>(env: History<Q, F>, lo: nat, hi: nat) {
    forall q, i, j :: lo <= i <= hi && lo <= j <= hi ==> env(i, q) == env(j, q)
  }

  ghost predicate Finished<Q, F, R>(p: Procedure<Q, F, R>, facts: seq<F>) {
    p(facts).Done? && forall k :: 0 <= k < |facts| ==> p(facts[..k]).Get?
  }

  /** The result tells which facts were read. */
  ghost predicate Faithful<Q, F(!new), R(!new)>(p: Procedure<Q, F, R>) {
    forall result :: FaithfulAt(p, result)
  }

  /** This result tells which facts were read. */
  ghost predicate FaithfulAt<Q, F(!new), R>(p: Procedure<Q, F, R>, result: R) {
    forall f, g :: Yields(p, f, result) && Yields(p, g, result) ==> f == g
  }

  /** Reading these facts in turn gives this result. */
  ghost predicate Yields<Q, F, R>(p: Procedure<Q, F, R>, facts: seq<F>, result: R) {
    Finished(p, facts) && p(facts) == Done(result)
  }

  /** Among these facts is the answer `fact` to `q`. */
  ghost predicate Reads<Q, F, R>(p: Procedure<Q, F, R>, facts: seq<F>, q: Q, fact: F) {
    exists k :: 0 <= k < |facts| && p(facts[..k]) == Get(q) && facts[k] == fact
  }

  /** Whatever was read to give this result, it included this answer. */
  ghost predicate Revealed<Q, F(!new), R>(p: Procedure<Q, F, R>, result: R, q: Q, fact: F) {
    forall facts :: Yields(p, facts, result) ==> Reads(p, facts, q, fact)
  }

  /** The `i`-th answer, counted through `f` and then through `g`, is the answer `fact` to `q`. */
  ghost predicate AnswerAt<Q, F, R>(p: Procedure<Q, F, R>, f: seq<F>, g: seq<F>, i: nat, q: Q, fact: F) {
    if i < |f| then p(f[..i]) == Get(q) && f[i] == fact
    else i - |f| < |g| && p(g[..i - |f|]) == Get(q) && g[i - |f|] == fact
  }

  /** In the answers of `f` followed by those of `g`, no query goes back to an earlier answer. */
  ghost predicate Compatible<Q(!new), F(!new), R>(p: Procedure<Q, F, R>, f: seq<F>, g: seq<F>) {
    forall q, x, y, i: nat, j: nat, k: nat ::
      i <= j <= k && AnswerAt(p, f, g, i, q, x) && AnswerAt(p, f, g, j, q, y) && AnswerAt(p, f, g, k, q, x) ==> y == x
  }

  /** Two runs that can give this result one after the other while no value changes back. */
  ghost predicate Repeats<Q(!new), F(!new), R>(p: Procedure<Q, F, R>, f: seq<F>, g: seq<F>, result: R) {
    Yields(p, f, result) && Yields(p, g, result) && Compatible(p, f, g)
  }

  /** Whenever the result can be given twice, both runs read this answer. */
  ghost predicate Fixed<Q(!new), F(!new), R>(p: Procedure<Q, F, R>, result: R, q: Q, fact: F) {
    forall f, g :: Repeats(p, f, g, result) ==> Reads(p, f, q, fact) && Reads(p, g, q, fact)
  }

  /** Every answer in `h` was read in both `f` and `g`. */
  ghost predicate IsCommon<Q(!new), F, R>(p: Procedure<Q, F, R>, h: seq<F>, f: seq<F>, g: seq<F>) {
    forall k, q :: 0 <= k < |h| && p(h[..k]) == Get(q) ==> Reads(p, f, q, h[k]) && Reads(p, g, q, h[k])
  }

  /** Whenever the result can be given twice, it can also be given from the answers common to both runs. */
  ghost predicate Settled<Q(!new), F(!new), R>(p: Procedure<Q, F, R>, result: R) {
    forall f, g :: Repeats(p, f, g, result) ==> exists h :: Yields(p, h, result) && IsCommon(p, h, f, g)
  }

  /** At `t`, everything that the result fixes is so; and the procedure would yield it, if the result is settled. */
  ghost predicate Shown<Q(!new), F(!new), R>(env: History<Q, F>, p: Procedure<Q, F, R>, t: nat, result: R) {
    && (forall q, fact :: Fixed(p, result, q, fact) ==> env(t, q) == Some(fact))
    && (Settled(p, result) ==> Holds(env, p, t, result))
  }

  lemma RevealedIsFixed<Q(!new), F(!new), R>(p: Procedure<Q, F, R>, result: R, q: Q, fact: F)
    requires Revealed(p, result, q, fact)
    ensures Fixed(p, result, q, fact)
  {
  }

  lemma FaithfulIsSettled<Q(!new), F(!new), R>(p: Procedure<Q, F, R>, result: R)
    requires FaithfulAt(p, result)
    ensures Settled(p, result)
  {
    forall f, g | Repeats(p, f, g, result)
      ensures Yields(p, f, result) && IsCommon(p, f, f, g)
    {
      assert f == g;
    }
  }

  lemma SteadyWithin<Q(!new), F>(env: History<Q, F>, lo: nat, from: nat, to: nat, hi: nat)
    requires lo <= from <= to <= hi
    ensures Steady(env, lo, hi) ==> Steady(env, from, to)
  {
  }

  lemma WithinWider(times: seq<nat>, lo: nat, hi: nat, lower: nat, higher: nat)
    requires Within(times, lo, hi) && lower <= lo && hi <= higher
    ensures Within(times, lower, higher)
  {
  }

  lemma WithinFollows(before: seq<nat>, lo: nat, t: nat, after: seq<nat>, hi: nat)
    requires lo <= t <= hi && Within(before, lo, t) && Within(after, t, hi)
    ensures Within(before + after, lo, hi)
  {
    var times := before + after;
    forall k | 0 <= k < |times|
      ensures lo <= times[k] <= hi && (k < |before| ==> times[k] <= t) && (k >= |before| ==> t <= times[k])
    {
    }
    forall i, j | 0 <= i < j < |times|
      ensures times[i] <= times[j]
    {
      assert j < |before| ==> before[i] <= before[j];
      assert |before| <= i ==> after[i - |before|] <= after[j - |before|];
    }
  }

  lemma RunIsFinished<Q, F, R>(env: History<Q, F>, p: Procedure<Q, F, R>, facts: seq<F>, times: seq<nat>, result: R)
    requires IsRun(env, p, facts, times, result)
    ensures Finished(p, facts)
  {
    forall k | 0 <= k < |facts|
      ensures p(facts[..k]).Get?
    {
      assert ReadAt(env, p, facts, k, times[k]);
    }
  }

  lemma RunReads<Q, F, R>(
    env: History<Q, F>, p: Procedure<Q, F, R>, facts: seq<F>, times: seq<nat>, result: R, q: Q, fact: F) returns (t: nat)
    requires IsRun(env, p, facts, times, result) && Reads(p, facts, q, fact)
    ensures t in times && env(t, q) == Some(fact)
  {
    var k :| 0 <= k < |facts| && p(facts[..k]) == Get(q) && facts[k] == fact;
    assert ReadAt(env, p, facts, k, times[k]);
    t := times[k];
  }

  /** What the runs of a result read around `t`, in order, shows that no value changed back between them. */
  lemma RunsAreCompatible<Q(!new), F(!new), R>(
    env: History<Q, F>, p: Procedure<Q, F, R>, f: seq<F>, before: seq<nat>, g: seq<F>, after: seq<nat>, result: R,
    lo: nat, t: nat, hi: nat)
    requires Steady(env, lo, hi) && lo <= t <= hi
    requires IsRun(env, p, f, before, result) && Within(before, lo, t)
    requires IsRun(env, p, g, after, result) && Within(after, t, hi)
    ensures Repeats(p, f, g, result)
  {
    RunIsFinished(env, p, f, before, result);
    RunIsFinished(env, p, g, after, result);
    var times := before + after;
    WithinFollows(before, lo, t, after, hi);
    forall q, x, y, i: nat, j: nat, k: nat
      | i <= j <= k && AnswerAt(p, f, g, i, q, x) && AnswerAt(p, f, g, j, q, y) && AnswerAt(p, f, g, k, q, x)
      ensures y == x
    {
      AnswerIsTimed(env, p, f, before, g, after, result, i, q, x);
      AnswerIsTimed(env, p, f, before, g, after, result, j, q, y);
      AnswerIsTimed(env, p, f, before, g, after, result, k, q, x);
      ReadHolds(env, q, x, lo, times[i], times[j], times[k], hi);
    }
  }

  lemma AnswerIsTimed<Q, F, R>(
    env: History<Q, F>, p: Procedure<Q, F, R>, f: seq<F>, before: seq<nat>, g: seq<F>, after: seq<nat>, result: R,
    i: nat, q: Q, fact: F)
    requires IsRun(env, p, f, before, result) && IsRun(env, p, g, after, result) && AnswerAt(p, f, g, i, q, fact)
    ensures i < |before + after| && env((before + after)[i], q) == Some(fact)
  {
    if i < |f| {
      assert ReadAt(env, p, f, i, before[i]);
    } else {
      assert ReadAt(env, p, g, i - |f|, after[i - |f|]);
    }
  }

  /**
   What a result fixes, when a run gave that result before `t` and a run gave it again after `t`, is so at `t`;
   and if the result is settled, it is what the procedure would yield at `t`.
   */
  lemma AgreementShows<Q(!new), F(!new), R>(
    env: History<Q, F>, p: Procedure<Q, F, R>, f: seq<F>, before: seq<nat>, g: seq<F>, after: seq<nat>, result: R,
    lo: nat, t: nat, hi: nat)
    requires Steady(env, lo, hi) && lo <= t <= hi
    requires IsRun(env, p, f, before, result) && Within(before, lo, t)
    requires IsRun(env, p, g, after, result) && Within(after, t, hi)
    ensures Shown(env, p, t, result)
  {
    RunsAreCompatible(env, p, f, before, g, after, result, lo, t, hi);
    forall q, fact | Reads(p, f, q, fact) && Reads(p, g, q, fact)
      ensures env(t, q) == Some(fact)
    {
      var i := RunReads(env, p, f, before, result, q, fact);
      var k := RunReads(env, p, g, after, result, q, fact);
      ReadHolds(env, q, fact, lo, i, t, k, hi);
    }
    if Settled(p, result) {
      var h :| Yields(p, h, result) && IsCommon(p, h, f, g);
      forall k | 0 <= k < |h|
        ensures ReadAt(env, p, h, k, t)
      {
        assert p(h[..k]) == Get(p(h[..k]).query);
      }
      assert HoldsWith(env, p, t, h);
    }
  }

  /** The same for a single read. */
  lemma ReadHolds<Q(!new), F>(env: History<Q, F>, q: Q, fact: F, lo: nat, before: nat, t: nat, after: nat, hi: nat)
    requires Steady(env, lo, hi) && lo <= before <= t <= after <= hi
    requires env(before, q) == Some(fact) && env(after, q) == Some(fact)
    ensures env(t, q) == Some(fact)
  {
  }

  /** At one instant a procedure reads one list of facts and yields one result. */
  lemma {:induction false} OneTruth<Q, F, R>(env: History<Q, F>, p: Procedure<Q, F, R>, t: nat, f: seq<F>, g: seq<F>)
    requires p(f).Done? && HoldsWith(env, p, t, f)
    requires p(g).Done? && HoldsWith(env, p, t, g)
    ensures f == g
  {
    var k := 0;
    while k < |f| && k < |g|
      invariant 0 <= k <= |f| && k <= |g| && f[..k] == g[..k]
    {
      assert ReadAt(env, p, f, k, t) && ReadAt(env, p, g, k, t);
      k := k + 1;
    }
    assert (k == |f| ==> f[..k] == f) && (k == |g| ==> g[..k] == g);
    assert (k < |f| ==> ReadAt(env, p, f, k, t)) && (k < |g| ==> ReadAt(env, p, g, k, t));
  }

  lemma ResultIsUnique<Q, F(!new), R>(env: History<Q, F>, p: Procedure<Q, F, R>, t: nat, a: R, b: R)
    requires Holds(env, p, t, a) && Holds(env, p, t, b)
    ensures a == b
  {
    var f :| p(f) == Done(a) && HoldsWith(env, p, t, f);
    var g :| p(g) == Done(b) && HoldsWith(env, p, t, g);
    OneTruth(env, p, t, f, g);
  }

  /** While nothing changes, a run yields what the procedure yields in any one instant. */
  lemma StillRunHolds<Q(!new), F(!new), R>(
    env: History<Q, F>, p: Procedure<Q, F, R>, facts: seq<F>, times: seq<nat>, result: R, lo: nat, t: nat, hi: nat)
    requires Still(env, lo, hi) && lo <= t <= hi
    requires IsRun(env, p, facts, times, result) && Within(times, lo, hi)
    ensures Holds(env, p, t, result)
  {
    forall k | 0 <= k < |facts|
      ensures ReadAt(env, p, facts, k, t)
    {
      assert ReadAt(env, p, facts, k, times[k]);
      var q := p(facts[..k]).query;
      assert env(times[k], q) == env(t, q);
    }
    assert HoldsWith(env, p, t, facts);
  }

  /** While nothing changes, two runs agree. */
  lemma StillRunsAgree<Q(!new), F(!new), R>(
    env: History<Q, F>, p: Procedure<Q, F, R>, f: seq<F>, before: seq<nat>, a: R, g: seq<F>, after: seq<nat>, b: R,
    lo: nat, hi: nat)
    requires Still(env, lo, hi) && lo <= hi
    requires IsRun(env, p, f, before, a) && Within(before, lo, hi)
    requires IsRun(env, p, g, after, b) && Within(after, lo, hi)
    ensures a == b
  {
    StillRunHolds(env, p, f, before, a, lo, lo, hi);
    StillRunHolds(env, p, g, after, b, lo, lo, hi);
    ResultIsUnique(env, p, lo, a, b);
  }

  /**
   Why the assumption is needed: values that change back can be read twice with the same results although
   no instant ever had them together. Two switches that are never on together look on at all four reads.
   */
  lemma RevertingValuesFoolRereads()
    ensures var env: History<bool, int> := (t: nat, q: bool) => if (t % 2 == 0) == q then Some(1) else None;
            && env(0, true) == env(4, true) == Some(1)
            && env(1, false) == env(5, false) == Some(1)
            && (forall t: nat :: !(env(t, true).Some? && env(t, false).Some?))
            && !Steady(env, 0, 5)
  {
    var env: History<bool, int> := (t: nat, q: bool) => if (t % 2 == 0) == q then Some(1) else None;
    assert env(0, true) == Some(1) && env(4, true) == Some(1) && env(1, true) == None;
    assert env(1, false) == Some(1) && env(5, false) == Some(1);
  }

  // ----- exactly what agreeing re-reads fix -----

  ghost predicate Ascending(times: seq<nat>) {
    forall i, j :: 0 <= i < j < |times| ==> times[i] < times[j]
  }

  /** Two runs, one all before `t` and one all after it, give the same result in a history that is steady around them. */
  ghost predicate Agree<Q(!new), F, R>(
    env: History<Q, F>, p: Procedure<Q, F, R>, f: seq<F>, before: seq<nat>, g: seq<F>, after: seq<nat>, result: R,
    lo: nat, t: nat, hi: nat)
  {
    && Steady(env, lo, hi) && lo <= t <= hi && Ascending(before) && Ascending(after)
    && IsRun(env, p, f, before, result) && Within(before, lo, t)
    && IsRun(env, p, g, after, result) && Within(after, t, hi)
  }

  function Times(from: nat, n: nat): (times: seq<nat>)
    ensures |times| == n && forall k :: 0 <= k < n ==> times[k] == from + k
  {
    seq(n, k requires 0 <= k < n => from + k)
  }

  /** Answers before the instant `|f|` are those of `f` and come at their own positions, the others one later. */
  function Slot<F>(f: seq<F>, i: nat): nat {
    if i < |f| then i else i + 1
  }

  /** The time `t` lies between two answers `fact` to `q`. */
  ghost predicate Lasts<Q, F, R>(p: Procedure<Q, F, R>, f: seq<F>, g: seq<F>, t: nat, q: Q, fact: F) {
    exists i: nat, k: nat :: Slot(f, i) <= t <= Slot(f, k) && AnswerAt(p, f, g, i, q, fact) && AnswerAt(p, f, g, k, q, fact)
  }

  ghost function Lasting<Q, F(!new), R>(p: Procedure<Q, F, R>, f: seq<F>, g: seq<F>, t: nat, q: Q): (r: Option<F>)
    ensures r.Some? ==> Lasts(p, f, g, t, q, r.value)
    ensures r.None? ==> forall fact :: !Lasts(p, f, g, t, q, fact)
  {
    if fact :| Lasts(p, f, g, t, q, fact) then Some(fact) else None
  }

  /** The history with the fewest answers in which the procedure reads `f` and then `g`: an answer lasts while it is still needed. */
  ghost function Sparest<Q, F(!new), R>(p: Procedure<Q, F, R>, f: seq<F>, g: seq<F>): History<Q, F> {
    (t: nat, q: Q) => Lasting(p, f, g, t, q)
  }

  lemma OneLasts<Q(!new), F(!new), R>(p: Procedure<Q, F, R>, f: seq<F>, g: seq<F>, t: nat, q: Q, x: F, y: F)
    requires Compatible(p, f, g) && Lasts(p, f, g, t, q, x) && Lasts(p, f, g, t, q, y)
    ensures x == y
  {
    var i: nat, k: nat :| Slot(f, i) <= t <= Slot(f, k) && AnswerAt(p, f, g, i, q, x) && AnswerAt(p, f, g, k, q, x);
    var a: nat, b: nat :| Slot(f, a) <= t <= Slot(f, b) && AnswerAt(p, f, g, a, q, y) && AnswerAt(p, f, g, b, q, y);
    assert i <= k && a <= b && (i <= a <= k || a <= i <= b);
  }

  lemma SparestAnswers<Q(!new), F(!new), R>(p: Procedure<Q, F, R>, f: seq<F>, g: seq<F>, t: nat, q: Q, fact: F)
    requires Compatible(p, f, g)
    ensures Sparest(p, f, g)(t, q) == Some(fact) <==> Lasts(p, f, g, t, q, fact)
  {
    if Lasts(p, f, g, t, q, fact) {
      OneLasts(p, f, g, t, q, fact, Lasting(p, f, g, t, q).value);
    }
  }

  lemma SparestIsSteady<Q(!new), F(!new), R>(p: Procedure<Q, F, R>, f: seq<F>, g: seq<F>, lo: nat, hi: nat)
    requires Compatible(p, f, g)
    ensures Steady(Sparest(p, f, g), lo, hi)
  {
    var env := Sparest(p, f, g);
    forall q, i, j, k | lo <= i <= j <= k <= hi && env(i, q).Some? && env(i, q) == env(k, q)
      ensures env(j, q) == env(i, q)
    {
      var x := env(i, q).value;
      SparestAnswers(p, f, g, i, q, x);
      SparestAnswers(p, f, g, k, q, x);
      var a: nat, b: nat :| Slot(f, a) <= i <= Slot(f, b) && AnswerAt(p, f, g, a, q, x) && AnswerAt(p, f, g, b, q, x);
      var c: nat, d: nat :| Slot(f, c) <= k <= Slot(f, d) && AnswerAt(p, f, g, c, q, x) && AnswerAt(p, f, g, d, q, x);
      assert Lasts(p, f, g, j, q, x);
      SparestAnswers(p, f, g, j, q, x);
    }
  }

  lemma SparestReads<Q(!new), F(!new), R>(p: Procedure<Q, F, R>, f: seq<F>, g: seq<F>, i: nat, q: Q, fact: F)
    requires Compatible(p, f, g) && AnswerAt(p, f, g, i, q, fact)
    ensures Sparest(p, f, g)(Slot(f, i), q) == Some(fact)
  {
    assert Lasts(p, f, g, Slot(f, i), q, fact);
    SparestAnswers(p, f, g, Slot(f, i), q, fact);
  }

  /** In the instant between the runs, exactly the answers that both runs read are left. */
  lemma SparestBetween<Q(!new), F(!new), R>(p: Procedure<Q, F, R>, f: seq<F>, g: seq<F>, q: Q, fact: F)
    requires Compatible(p, f, g)
    ensures Sparest(p, f, g)(|f|, q) == Some(fact) <==> Reads(p, f, q, fact) && Reads(p, g, q, fact)
  {
    SparestAnswers(p, f, g, |f|, q, fact);
    if Reads(p, f, q, fact) && Reads(p, g, q, fact) {
      var i :| 0 <= i < |f| && p(f[..i]) == Get(q) && f[i] == fact;
      var k :| 0 <= k < |g| && p(g[..k]) == Get(q) && g[k] == fact;
      assert AnswerAt(p, f, g, i, q, fact) && AnswerAt(p, f, g, |f| + k, q, fact);
    }
  }

  lemma SparestAgrees<Q(!new), F(!new), R>(p: Procedure<Q, F, R>, f: seq<F>, g: seq<F>, result: R)
    requires Repeats(p, f, g, result)
    ensures Agree(Sparest(p, f, g), p, f, Times(0, |f|), g, Times(|f| + 1, |g|), result, 0, |f|, |f| + |g| + 1)
  {
    var env, after := Sparest(p, f, g), Times(|f| + 1, |g|);
    forall k | 0 <= k < |f|
      ensures ReadAt(env, p, f, k, k)
    {
      SparestReads(p, f, g, k, p(f[..k]).query, f[k]);
    }
    forall k | 0 <= k < |g|
      ensures ReadAt(env, p, g, k, after[k])
    {
      SparestReads(p, f, g, |f| + k, p(g[..k]).query, g[k]);
    }
    SparestIsSteady(p, f, g, 0, |f| + |g| + 1);
  }

  /** Agreeing runs always mean that an answer holds in between if and only if the result fixes that answer. */
  lemma FixedIsGuaranteed<Q(!new), F(!new), R>(p: Procedure<Q, F, R>, result: R, q: Q, fact: F)
    ensures Fixed(p, result, q, fact) <==>
            forall env: History<Q, F>, f, before, g, after, lo, t, hi ::
              Agree(env, p, f, before, g, after, result, lo, t, hi) ==> env(t, q) == Some(fact)
  {
    if Fixed(p, result, q, fact) {
      forall env: History<Q, F>, f, before, g, after, lo, t, hi | Agree(env, p, f, before, g, after, result, lo, t, hi)
        ensures env(t, q) == Some(fact)
      {
        AgreementShows(env, p, f, before, g, after, result, lo, t, hi);
      }
    }
    if forall env: History<Q, F>, f, before, g, after, lo, t, hi ::
         Agree(env, p, f, before, g, after, result, lo, t, hi) ==> env(t, q) == Some(fact) {
      forall f, g | Repeats(p, f, g, result)
        ensures Reads(p, f, q, fact) && Reads(p, g, q, fact)
      {
        SparestAgrees(p, f, g, result);
        SparestBetween(p, f, g, q, fact);
      }
    }
  }

  /** Agreeing runs always mean that the procedure would yield their result in between if and only if it is settled. */
  lemma AgreementIsDecisive<Q(!new), F(!new), R>(p: Procedure<Q, F, R>, result: R)
    ensures Settled(p, result) <==>
            forall env: History<Q, F>, f, before, g, after, lo, t, hi ::
              Agree(env, p, f, before, g, after, result, lo, t, hi) ==> Holds(env, p, t, result)
  {
    if Settled(p, result) {
      forall env: History<Q, F>, f, before, g, after, lo, t, hi | Agree(env, p, f, before, g, after, result, lo, t, hi)
        ensures Holds(env, p, t, result)
      {
        AgreementShows(env, p, f, before, g, after, result, lo, t, hi);
      }
    }
    if forall env: History<Q, F>, f, before, g, after, lo, t, hi ::
         Agree(env, p, f, before, g, after, result, lo, t, hi) ==> Holds(env, p, t, result) {
      forall f, g | Repeats(p, f, g, result)
        ensures exists h :: Yields(p, h, result) && IsCommon(p, h, f, g)
      {
        SparestAgrees(p, f, g, result);
        HeldIsCommon(p, f, g, result);
      }
    }
  }

  lemma HeldIsCommon<Q(!new), F(!new), R>(p: Procedure<Q, F, R>, f: seq<F>, g: seq<F>, result: R)
    requires Compatible(p, f, g) && Holds(Sparest(p, f, g), p, |f|, result)
    ensures exists h :: Yields(p, h, result) && IsCommon(p, h, f, g)
  {
    var env := Sparest(p, f, g);
    var h :| p(h) == Done(result) && HoldsWith(env, p, |f|, h);
    forall k | 0 <= k < |h|
      ensures p(h[..k]).Get?
    {
      assert ReadAt(env, p, h, k, |f|);
    }
    forall k, q | 0 <= k < |h| && p(h[..k]) == Get(q)
      ensures Reads(p, f, q, h[k]) && Reads(p, g, q, h[k])
    {
      assert ReadAt(env, p, h, k, |f|);
      SparestBetween(p, f, g, q, h[k]);
    }
    assert Yields(p, h, result) && IsCommon(p, h, f, g);
  }

  // ----- procedures that ask no query twice -----

  /** No run asks the same query twice. */
  ghost predicate AsksOnce<Q, F(!new), R>(p: Procedure<Q, F, R>) {
    forall facts :: Finished(p, facts) ==> forall i, j :: 0 <= i < j < |facts| ==> p(facts[..i]) != p(facts[..j])
  }

  lemma AskingOnceRepeats<Q(!new), F(!new), R>(p: Procedure<Q, F, R>, f: seq<F>, g: seq<F>, result: R)
    requires AsksOnce(p) && Yields(p, f, result) && Yields(p, g, result)
    ensures Repeats(p, f, g, result)
  {
    assert forall i, j :: 0 <= i < j < |f| ==> p(f[..i]) != p(f[..j]);
    assert forall i, j :: 0 <= i < j < |g| ==> p(g[..i]) != p(g[..j]);
  }

  /** For such a procedure, what is fixed is what the result reveals, and it is settled when it tells all. */
  lemma AskingOnceFixes<Q(!new), F(!new), R>(p: Procedure<Q, F, R>, result: R, q: Q, fact: F)
    requires AsksOnce(p)
    ensures Fixed(p, result, q, fact) <==> Revealed(p, result, q, fact)
    ensures Settled(p, result) <==> FaithfulAt(p, result)
  {
    forall f, g | Yields(p, f, result) && Yields(p, g, result)
      ensures Repeats(p, f, g, result) && Repeats(p, f, f, result)
    {
      AskingOnceRepeats(p, f, g, result);
      AskingOnceRepeats(p, f, f, result);
    }
    if FaithfulAt(p, result) {
      FaithfulIsSettled(p, result);
    }
    if Settled(p, result) {
      forall f, g | Yields(p, f, result) && Yields(p, g, result)
        ensures f == g
      {
        var h :| Yields(p, h, result) && IsCommon(p, h, f, g);
        CommonIsWhole(p, h, f, result);
        CommonIsWhole(p, h, g, result);
      }
    }
  }

  lemma {:induction false} CommonIsWhole<Q(!new), F(!new), R>(p: Procedure<Q, F, R>, h: seq<F>, f: seq<F>, result: R)
    requires AsksOnce(p) && Yields(p, h, result) && Yields(p, f, result)
    requires IsCommon(p, h, f, f)
    ensures h == f
  {
    assert forall i, j :: 0 <= i < j < |f| ==> p(f[..i]) != p(f[..j]);
    var k := 0;
    while k < |h| && k < |f|
      invariant 0 <= k <= |h| && k <= |f| && h[..k] == f[..k]
    {
      assert p(h[..k]) == Get(p(h[..k]).query);
      assert Reads(p, f, p(h[..k]).query, h[k]);
      k := k + 1;
    }
    assert (k == |h| ==> h[..k] == h) && (k == |f| ==> f[..k] == f);
  }

  /** A client of the remote state. Any amount of time, and any change, may pass before a read. */
  class Remote<!Q, !F(!new)> {
    const env: History<Q, F>
    var clock: nat

    constructor (env: History<Q, F>)
      ensures this.env == env && clock == 0
    {
      this.env := env;
      clock := 0;
    }

    method Get(q: Q) returns (fact: Option<F>)
      modifies this
      ensures clock > old(clock) && fact == env(clock, q)
    {
      var wait: nat :| wait >= 0;
      clock := clock + 1 + wait;
      fact := env(clock, q);
    }

    /** Runs a procedure; it yields nothing only if an answer was refused or the procedure gave up. */
    method Perform<R>(p: Procedure<Q, F, R>, ghost bound: nat)
      returns (r: Option<R>, ghost read: seq<F>, ghost times: seq<nat>)
      requires Bounded(p, bound)
      modifies this
      ensures clock >= old(clock)
      ensures r.Some? ==> IsRun(env, p, read, times, r.value) && Within(times, old(clock), clock)
      ensures r.None? ==> p(read).Stop? || (p(read).Get? && env(clock, p(read).query) == None)
    {
      var facts: seq<F> := [];
      times := [];
      while p(facts).Get?
        invariant clock >= old(clock) && |times| == |facts| <= bound && Within(times, old(clock), clock)
        invariant forall k :: 0 <= k < |facts| ==> ReadAt(env, p, facts, k, times[k])
        decreases bound - |facts|
      {
        var fact := Get(p(facts).query);
        if fact.None? { return None, facts, times; }
        ghost var was := facts;
        facts, times := facts + [fact.value], times + [clock];
        assert forall k :: 0 <= k < |was| ==> facts[..k] == was[..k];
        assert facts[..|was|] == was;
        assert forall k :: 0 <= k < |was| ==> ReadAt(env, p, was, k, times[k]);
      }
      read := facts;
      r := if p(facts).Done? then Some(p(facts).result) else None;
    }
  }
}
