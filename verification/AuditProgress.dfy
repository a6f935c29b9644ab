/** Closing the audit sink: what the first `close` waits for, and when that comes to an end. */
module AuditProgress {
  import opened Wrappers
  import opened AuditSinks

  /** The first `close` has completed: its flush has ended. */
  ghost predicate CloseIsDone<E>(s: State<E>) {
    s.closer.Some? && s.closer.value < |s.flushes| && s.flushes[s.closer.value].Settled?
  }

  ghost predicate IsFlushStep<E>(a: Action<E>) {
    a.Proceed? || a.Succeed? || a.Fault? || a.Wake?
  }

  // ---------------------------------------------------------------- what holds for all sizes

  /** A batch is attempted no more often than allowed, and paused for only before another attempt. */
  ghost predicate Attempting<E>(cfg: Config, f: Flush<E>) {
    && (f.Sending? ==> 1 <= f.attempt <= cfg.maxAttempts)
    && (f.Pausing? ==> 1 <= f.attempt < cfg.maxAttempts)
  }

  /** The part of the sink's invariant that does not depend on its sizes. */
  ghost predicate InLine<E>(cfg: Config, s: State<E>) {
    && Serialized(s.flushes) && ClosesProperly(s)
    && forall k | 0 <= k < |s.flushes| :: Attempting(cfg, s.flushes[k])
  }

  /** The flush that moves has all flushes before it ended and all behind it waiting. */
  lemma MoverIsAlone<E>(cfg: Config, s: State<E>, a: Action<E>)
    requires Serialized(s.flushes) && Enabled(cfg, s, a) && IsFlushStep(a)
    ensures forall i | 0 <= i < a.k :: s.flushes[i].Settled?
    ensures forall j | a.k < j < |s.flushes| :: s.flushes[j].Chained?
  {
    forall i | 0 <= i < a.k ensures s.flushes[i].Settled? {
      if i < a.k - 1 {
        assert !s.flushes[a.k].Chained? || !s.flushes[a.k - 1].Chained?;
      }
    }
  }

  lemma FlushStepKeepsInLine<E>(cfg: Config, s: State<E>, a: Action<E>)
    requires InLine(cfg, s) && Enabled(cfg, s, a) && IsFlushStep(a)
    ensures InLine(cfg, Apply(cfg, s, a))
  {
    MoverIsAlone(cfg, s, a);
    var u := Apply(cfg, s, a);
    assert u.flushes == s.flushes[a.k := u.flushes[a.k]];
    assert Attempting(cfg, s.flushes[a.k]);
    if a.Proceed? && s.queue == [] {
      assert u.queue == [];
    }
  }

  lemma StepKeepsInLine<E>(cfg: Config, s: State<E>, a: Action<E>)
    requires InLine(cfg, s) && Enabled(cfg, s, a)
    ensures InLine(cfg, Apply(cfg, s, a))
  {
    if IsFlushStep(a) {
      FlushStepKeepsInLine(cfg, s, a);
    }
  }

  /** States connected by steps, from any state. */
  ghost predicate IsPath<E>(cfg: Config, states: seq<State<E>>, actions: seq<Action<E>>) {
    |states| == |actions| + 1 && forall i | 0 <= i < |actions| :: StepAt(cfg, states, actions, i)
  }

  lemma {:induction false} PathKeepsInLine<E>(cfg: Config, states: seq<State<E>>, actions: seq<Action<E>>, n: nat)
    requires IsPath(cfg, states, actions) && n < |states| && InLine(cfg, states[0])
    ensures InLine(cfg, states[n])
  {
    if n > 0 {
      PathKeepsInLine(cfg, states, actions, n - 1);
      assert StepAt(cfg, states, actions, n - 1);
      StepKeepsInLine(cfg, states[n - 1], actions[n - 1]);
    }
  }

  lemma StaysClosed<E>(cfg: Config, s: State<E>, a: Action<E>)
    requires InLine(cfg, s) && Enabled(cfg, s, a) && s.closed
    ensures Apply(cfg, s, a).closed && Apply(cfg, s, a).closer == s.closer
    ensures Apply(cfg, s, a).accepted == s.accepted
    ensures CloseIsDone(s) ==> CloseIsDone(Apply(cfg, s, a))
  {}

  /** Whatever the sizes: once the first `close` has completed, the queue is empty, it stays
      empty, and no event is accepted any more. */
  lemma {:induction false} ClosedSinkIsDrained<E>(
    cfg: Config, states: seq<State<E>>, actions: seq<Action<E>>, m: nat, n: nat)
    requires IsRun(cfg, states, actions) && m <= n < |states| && CloseIsDone(states[m])
    ensures CloseIsDone(states[n]) && states[n].queue == [] && states[n].accepted == states[m].accepted
    decreases n - m
  {
    PathKeepsInLine(cfg, states, actions, n);
    if m < n {
      ClosedSinkIsDrained(cfg, states, actions, m, n - 1);
      PathKeepsInLine(cfg, states, actions, n - 1);
      assert StepAt(cfg, states, actions, n - 1);
      StaysClosed(cfg, states[n - 1], actions[n - 1]);
    }
  }

  // ---------------------------------------------------------------- what is left to do

  function Attempts(cfg: Config): nat {
    if cfg.maxAttempts < 0 then 0 else cfg.maxAttempts
  }

  /** What is left to do for one flush, not counting the queue. */
  function FlushWork<E>(cfg: Config, f: Flush<E>): nat {
    match f
    case Chained => 1
    case Sending(_, attempt, _) => if attempt <= Attempts(cfg) then 3 * (Attempts(cfg) - attempt) + 2 else 2
    case Pausing(_, attempt, _) => if attempt <= Attempts(cfg) then 3 * (Attempts(cfg) - attempt) + 1 else 1
    case BetweenBatches => 1
    case Settled => 0
  }

  function FlushesWork<E>(cfg: Config, fs: seq<Flush<E>>): nat {
    if fs == [] then 0 else FlushWork(cfg, fs[0]) + FlushesWork(cfg, fs[1..])
  }

  /** What is left to do until the first `close` completes: the queue, and the flushes up to
      the one that `close` started. */
  function CloseWork<E>(cfg: Config, s: State<E>): nat
    requires s.closer.Some? && s.closer.value < |s.flushes|
  {
    |s.queue| * (3 * Attempts(cfg) + 2) + FlushesWork(cfg, s.flushes[..s.closer.value + 1])
  }

  lemma {:induction false} WorkOfUpdate<E>(cfg: Config, fs: seq<Flush<E>>, k: nat, f: Flush<E>)
    requires k < |fs|
    ensures FlushesWork(cfg, fs[k := f]) == FlushesWork(cfg, fs) - FlushWork(cfg, fs[k]) + FlushWork(cfg, f)
  {
    if k == 0 {
      assert fs[0 := f][1..] == fs[1..];
    } else {
      assert fs[k := f][1..] == fs[1..][k - 1 := f];
      WorkOfUpdate(cfg, fs[1..], k - 1, f);
    }
  }

  lemma {:induction false} ShorterQueue(n: nat, m: nat, w: nat)
    requires n < m
    ensures n * w + w <= m * w
  {
    assert m * w == (m - 1) * w + w;
    if n < m - 1 {
      ShorterQueue(n, m - 1, w);
    }
  }

  /** Until the flush of the first `close` has ended, no flush behind it has begun. */
  lemma LaterFlushesWait<E>(cfg: Config, s: State<E>, a: Action<E>)
    requires InLine(cfg, s) && Enabled(cfg, s, a) && s.closed && !CloseIsDone(s) && IsFlushStep(a)
    ensures a.k <= s.closer.value
  {}

  /** A flush that finds the queue not empty shortens it exactly when batches are not empty. */
  lemma TakingShortensTheQueue<E>(cfg: Config, s: State<E>, k: nat)
    requires Enabled(cfg, s, Proceed(k)) && s.queue != []
    ensures |Looped(cfg, s, k).queue| < |s.queue| <==> cfg.batchSize >= 1
  {}

  /** A flush step either lowers the work of its flush, or takes from the queue and adds less
      to the flush than one event weighs. */
  lemma FlushStepWork<E>(cfg: Config, s: State<E>, a: Action<E>)
    requires cfg.batchSize >= 1 && IsFlushStep(a) && Enabled(cfg, s, a) && Attempting(cfg, s.flushes[a.k])
    ensures var u := Apply(cfg, s, a);
            && u.flushes == s.flushes[a.k := u.flushes[a.k]] && u.closer == s.closer
            && if a.Proceed? && s.queue != [] then
                 && |u.queue| < |s.queue|
                 && FlushWork(cfg, u.flushes[a.k]) < FlushWork(cfg, s.flushes[a.k]) + (3 * Attempts(cfg) + 2)
               else
                 u.queue == s.queue && FlushWork(cfg, u.flushes[a.k]) < FlushWork(cfg, s.flushes[a.k])
  {
    if a.Proceed? && s.queue != [] {
      TakingShortensTheQueue(cfg, s, a.k);
    }
  }

  lemma FlushStepProgresses<E>(cfg: Config, s: State<E>, a: Action<E>)
    requires cfg.batchSize >= 1 && InLine(cfg, s) && Enabled(cfg, s, a)
    requires s.closed && !CloseIsDone(s) && IsFlushStep(a)
    ensures var u := Apply(cfg, s, a);
            && u.closer == s.closer && u.closer.value < |u.flushes|
            && CloseWork(cfg, u) < CloseWork(cfg, s)
  {
    LaterFlushesWait(cfg, s, a);
    FlushStepWork(cfg, s, a);
    LessIsLeft(cfg, s, Apply(cfg, s, a), a.k);
  }

  lemma LessIsLeft<E>(cfg: Config, s: State<E>, u: State<E>, k: nat)
    requires s.closer.Some? && k <= s.closer.value < |s.flushes| == |u.flushes|
    requires u.flushes == s.flushes[k := u.flushes[k]] && u.closer == s.closer
    requires || (|u.queue| == |s.queue| && FlushWork(cfg, u.flushes[k]) < FlushWork(cfg, s.flushes[k]))
             || (|u.queue| < |s.queue|
                 && FlushWork(cfg, u.flushes[k]) < FlushWork(cfg, s.flushes[k]) + (3 * Attempts(cfg) + 2))
    ensures CloseWork(cfg, u) < CloseWork(cfg, s)
  {
    var c := s.closer.value + 1;
    assert u.flushes[..c] == s.flushes[..c][k := u.flushes[k]];
    WorkOfUpdate(cfg, s.flushes[..c], k, u.flushes[k]);
    if |u.queue| < |s.queue| {
      ShorterQueue(|u.queue|, |s.queue|, 3 * Attempts(cfg) + 2);
    }
  }

  /** While the first `close` is waiting, no step at all adds to what it waits for, further
      flushes included, and every step of a flush lessens it. */
  lemma DrainingProgresses<E>(cfg: Config, s: State<E>, a: Action<E>)
    requires cfg.batchSize >= 1 && InLine(cfg, s) && Enabled(cfg, s, a) && s.closed && !CloseIsDone(s)
    ensures var u := Apply(cfg, s, a);
            && u.closer == s.closer && u.closer.value < |u.flushes|
            && CloseWork(cfg, u) <= CloseWork(cfg, s)
            && (IsFlushStep(a) ==> CloseWork(cfg, u) < CloseWork(cfg, s))
            && (a.Record? || a.Close? ==> u == s)
  {
    if IsFlushStep(a) {
      FlushStepProgresses(cfg, s, a);
    } else if a.StartFlush? {
      var c := s.closer.value + 1;
      assert (s.flushes + [Chained])[..c] == s.flushes[..c];
    }
  }

  function FlushSteps<E>(actions: seq<Action<E>>): nat {
    if actions == [] then 0
    else
      var last := actions[|actions| - 1];
      FlushSteps(actions[..|actions| - 1])
      + if last.Proceed? || last.Succeed? || last.Fault? || last.Wake? then 1 else 0
  }

  lemma FlushStepsOfMore<E>(actions: seq<Action<E>>, a: Action<E>)
    ensures FlushSteps(actions + [a]) == FlushSteps(actions) + if IsFlushStep(a) then 1 else 0
  {
    assert (actions + [a])[..|actions|] == actions;
  }

  lemma {:induction false} PathStaysClosed<E>(cfg: Config, states: seq<State<E>>, actions: seq<Action<E>>, n: nat)
    requires IsPath(cfg, states, actions) && n < |states| && InLine(cfg, states[0]) && states[0].closed
    ensures InLine(cfg, states[n]) && states[n].closed && states[n].closer == states[0].closer
    ensures CloseIsDone(states[0]) ==> CloseIsDone(states[n])
  {
    PathKeepsInLine(cfg, states, actions, n);
    if n > 0 {
      PathStaysClosed(cfg, states, actions, n - 1);
      assert StepAt(cfg, states, actions, n - 1);
      StaysClosed(cfg, states[n - 1], actions[n - 1]);
    }
  }

  /** One step while the first `close` is waiting. */
  lemma CloseStep<E>(cfg: Config, states: seq<State<E>>, actions: seq<Action<E>>, n: nat)
    requires cfg.batchSize >= 1 && IsPath(cfg, states, actions) && n < |actions|
    requires InLine(cfg, states[n]) && states[n].closed && !CloseIsDone(states[n + 1])
    ensures !CloseIsDone(states[n]) && states[n].closer.Some? && states[n + 1].closer == states[n].closer
    ensures states[n].closer.value < |states[n].flushes| && states[n].closer.value < |states[n + 1].flushes|
    ensures CloseWork(cfg, states[n + 1]) + (if IsFlushStep(actions[n]) then 1 else 0) <= CloseWork(cfg, states[n])
  {
    assert StepAt(cfg, states, actions, n);
    StaysClosed(cfg, states[n], actions[n]);
    DrainingProgresses(cfg, states[n], actions[n]);
  }

  /** From a closed state on, in any interleaving: as long as the first `close` waits, the flush
      steps made and what is left to do never exceed what there was. */
  lemma {:induction false} CloseTakesBoundedWork<E>(
    cfg: Config, states: seq<State<E>>, actions: seq<Action<E>>, n: nat)
    requires cfg.batchSize >= 1 && IsPath(cfg, states, actions) && n < |states|
    requires InLine(cfg, states[0]) && states[0].closed && !CloseIsDone(states[n])
    ensures states[0].closer.Some? && states[n].closer == states[0].closer
    ensures states[0].closer.value < |states[0].flushes| && states[0].closer.value < |states[n].flushes|
    ensures FlushSteps(actions[..n]) + CloseWork(cfg, states[n]) <= CloseWork(cfg, states[0])
  {
    if n > 0 {
      PathStaysClosed(cfg, states, actions, n - 1);
      CloseStep(cfg, states, actions, n - 1);
      CloseTakesBoundedWork(cfg, states, actions, n - 1);
      assert actions[..n] == actions[..n - 1] + [actions[n - 1]];
      FlushStepsOfMore(actions[..n - 1], actions[n - 1]);
    }
  }

  /** Until a flush has ended, it or one before it can go on without a fault. */
  lemma DrainingIsNeverStuck<E>(cfg: Config, s: State<E>, k: nat)
    requires k < |s.flushes| && !s.flushes[k].Settled?
    ensures exists a: Action<E> :: (a.Proceed? || a.Succeed? || a.Wake?) && a.k <= k && Enabled(cfg, s, a)
    decreases k
  {
    match s.flushes[k]
    case Sending(_, _, _) => assert Enabled(cfg, s, Succeed(k));
    case Pausing(_, _, _) => assert Enabled(cfg, s, Wake(k));
    case BetweenBatches => assert Enabled(cfg, s, Proceed(k));
    case Chained =>
      if k > 0 && !s.flushes[k - 1].Settled? {
        DrainingIsNeverStuck(cfg, s, k - 1);
      } else {
        assert Enabled(cfg, s, Proceed(k));
      }
  }

  // ---------------------------------------------------------------- when the first close ends

  ghost predicate Reachable<E(!new)>(cfg: Config, s: State<E>) {
    exists states, actions :: IsRun(cfg, states, actions) && states[|actions|] == s
  }

  /** However the run goes on from this state, with more than `bound` flush steps the first
      `close` has completed. */
  ghost predicate EndsWithin<E(!new)>(cfg: Config, s: State<E>, bound: nat) {
    forall states, actions | IsPath(cfg, states, actions) && states[0] == s && FlushSteps(actions) > bound ::
      CloseIsDone(states[|actions|])
  }

  /** In every run the first `close`, once called, ends within a bounded number of flush steps. */
  ghost predicate FirstCloseEnds<E(!new)>(cfg: Config) {
    forall s: State<E> | Reachable(cfg, s) && s.closed :: exists bound: nat :: EndsWithin(cfg, s, bound)
  }

  lemma ClosingEnds<E(!new)>(cfg: Config, s: State<E>)
    requires cfg.batchSize >= 1 && Reachable(cfg, s) && s.closed
    ensures exists bound: nat :: EndsWithin(cfg, s, bound)
  {
    var run, steps :| IsRun(cfg, run, steps) && run[|steps|] == s;
    PathKeepsInLine(cfg, run, steps, |steps|);
    var bound := CloseWork(cfg, s);
    forall states, actions | IsPath(cfg, states, actions) && states[0] == s && FlushSteps(actions) > bound
      ensures CloseIsDone(states[|actions|])
    {
      assert actions[..|actions|] == actions;
      if !CloseIsDone(states[|actions|]) {
        CloseTakesBoundedWork(cfg, states, actions, |actions|);
      }
    }
    assert EndsWithin(cfg, s, bound);
  }

  /** The first `close` is alone and waits, and its flush is about to look at a queue that is
      not empty. */
  ghost predicate Spinning<E>(s: State<E>) {
    && s.closed && s.closer == Some(0) && |s.flushes| == 1 && s.queue != []
    && (s.flushes[0].Chained? || s.flushes[0].BetweenBatches?)
  }

  lemma PathOn<E>(cfg: Config, states: seq<State<E>>, actions: seq<Action<E>>, a: Action<E>)
    returns (more: seq<State<E>>, steps: seq<Action<E>>)
    requires IsPath(cfg, states, actions) && Enabled(cfg, states[|actions|], a)
    ensures IsPath(cfg, more, steps) && more[0] == states[0] && |steps| == |actions| + 1
    ensures more[|steps|] == Apply(cfg, states[|actions|], a)
    ensures FlushSteps(steps) == FlushSteps(actions) + if IsFlushStep(a) then 1 else 0
  {
    more, steps := states + [Apply(cfg, states[|actions|], a)], actions + [a];
    FlushStepsOfMore(actions, a);
    forall i | 0 <= i < |steps| ensures StepAt(cfg, more, steps, i) {
      if i < |actions| { assert StepAt(cfg, states, actions, i); }
    }
  }

  /** With an empty batch size the flush takes an empty batch, sends it, and is where it was. */
  lemma {:induction false} SpinsOn<E>(cfg: Config, s: State<E>, n: nat)
    returns (states: seq<State<E>>, actions: seq<Action<E>>)
    requires cfg.batchSize < 1 && Spinning(s)
    ensures IsPath(cfg, states, actions) && states[0] == s && FlushSteps(actions) >= n
    ensures Spinning(states[|actions|])
  {
    if n == 0 {
      states, actions := [s], [];
    } else {
      states, actions := SpinsOn(cfg, s, n - 1);
      var u := states[|actions|];
      assert Take(cfg, |u.queue|) == 0 && u.queue[0..] == u.queue;
      states, actions := PathOn(cfg, states, actions, Proceed(0));
      if cfg.maxAttempts >= 1 {
        states, actions := PathOn(cfg, states, actions, Succeed(0));
      }
    }
  }

  lemma CloseWithOneQueued<E(!new)>(cfg: Config, e: E) returns (s: State<E>)
    ensures Reachable(cfg, s) && Spinning(s)
  {
    assert IsPath(cfg, [Empty<E>()], []);
    var states, actions := PathOn(cfg, [Empty()], [], Record(e));
    states, actions := PathOn(cfg, states, actions, Close);
    s := states[|actions|];
    assert IsRun(cfg, states, actions);
  }

  /** With an empty batch size the first `close` may wait forever: after any number of flush
      steps it still waits, in some run. */
  lemma ZeroBatchSpins<E(!new)>(cfg: Config, e: E, n: nat)
    requires cfg.batchSize < 1
    ensures exists s: State<E>, states: seq<State<E>>, actions: seq<Action<E>> ::
              && Reachable(cfg, s) && s.closed
              && IsPath(cfg, states, actions) && states[0] == s && FlushSteps(actions) >= n
              && !CloseIsDone(states[|actions|])
  {
    var s := CloseWithOneQueued(cfg, e);
    var states, actions := SpinsOn(cfg, s, n);
  }

  /** The first `close` ends within a bounded number of flush steps, in every run, exactly when
      batches are not empty; the other sizes do not matter. */
  lemma FirstCloseEndsExactly<E(!new)>(cfg: Config, e: E)
    ensures FirstCloseEnds<E>(cfg) <==> cfg.batchSize >= 1
  {
    if cfg.batchSize >= 1 {
      forall s: State<E> | Reachable(cfg, s) && s.closed ensures exists bound: nat :: EndsWithin(cfg, s, bound) {
        ClosingEnds(cfg, s);
      }
    } else {
      var s := CloseWithOneQueued(cfg, e);
      forall bound: nat ensures !EndsWithin(cfg, s, bound) {
        var states, actions := SpinsOn(cfg, s, bound + 1);
        assert !CloseIsDone(states[|actions|]);
      }
    }
  }

  // ---------------------------------------------------------------- what is not promised

  /** A second `close` does nothing and returns at once, even while events are queued. */
  lemma SecondCloseDoesNotWait<E>(cfg: Config, e: E)
    ensures var s1 := Apply(cfg, Empty(), Record(e));
            var s2 := Apply(cfg, s1, Close);
            Apply(cfg, s2, Close) == s2 && s2.queue == [e] && !CloseIsDone(s2)
  {}
}
