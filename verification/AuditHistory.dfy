/** What a run of the audit sink does, told by the steps that were taken. */
module AuditHistory {
  import opened AuditSinks

  // ---------------------------------------------------------------- what is taken in

  /** The events that were recorded before the first `close`. */
  ghost function RecordedWhileOpen<E>(actions: seq<Action<E>>): seq<E> {
    if actions == [] then []
    else
      var before, last := actions[..|actions| - 1], actions[|actions| - 1];
      RecordedWhileOpen(before) + if last.Record? && Action<E>.Close !in before then [last.event] else []
  }

  lemma StepAccepts<E>(cfg: Config, s: State<E>, a: Action<E>)
    requires Enabled(cfg, s, a)
    ensures Apply(cfg, s, a).closed <==> s.closed || a.Close?
    ensures Apply(cfg, s, a).accepted == s.accepted + if a.Record? && !s.closed then [a.event] else []
  {}

  lemma OneMoreStep<E>(actions: seq<Action<E>>, n: nat)
    requires n < |actions|
    ensures Action<E>.Close in actions[..n + 1] <==> Action<E>.Close in actions[..n] || actions[n].Close?
    ensures RecordedWhileOpen(actions[..n + 1])
         == RecordedWhileOpen(actions[..n])
            + if actions[n].Record? && Action<E>.Close !in actions[..n] then [actions[n].event] else []
  {
    assert actions[..n + 1] == actions[..n] + [actions[n]];
    assert actions[..n + 1][..n] == actions[..n];
  }

  /** The sink is closed once `close` was called, and accepts what was recorded before that. */
  lemma {:induction false} AcceptedExactly<E>(
    cfg: Config, states: seq<State<E>>, actions: seq<Action<E>>, n: nat)
    requires IsRun(cfg, states, actions) && n < |states|
    ensures states[n].closed <==> Action<E>.Close in actions[..n]
    ensures states[n].accepted == RecordedWhileOpen(actions[..n])
  {
    if n > 0 {
      AcceptedExactly(cfg, states, actions, n - 1);
      assert StepAt(cfg, states, actions, n - 1);
      StepAccepts(cfg, states[n - 1], actions[n - 1]);
      OneMoreStep(actions, n - 1);
    }
  }

  /** An event is dropped exactly when another one is recorded in an open sink whose queue is
      full; it is the oldest of the queue, and the new one joins as the youngest. */
  lemma DropsExactly<E>(cfg: Config, states: seq<State<E>>, actions: seq<Action<E>>, n: nat)
    requires Accounts(cfg) && IsRun(cfg, states, actions) && n < |actions|
    ensures var s, u := states[n], states[n + 1];
            var full := actions[n].Record? && Action<E>.Close !in actions[..n] && |s.queue| == cfg.maxQueueSize;
            && u.dropped == s.dropped + (if full then 1 else 0)
            && (full ==> s.queue != [] && u.queue == s.queue[1..] + [actions[n].event])
  {
    RunKeepsInv(cfg, states, actions, n);
    AcceptedExactly(cfg, states, actions, n);
    assert StepAt(cfg, states, actions, n);
  }

  // ---------------------------------------------------------------- what becomes of a batch

  function Faults<E>(actions: seq<Action<E>>, k: nat): nat {
    if actions == [] then 0
    else
      var last := actions[|actions| - 1];
      Faults(actions[..|actions| - 1], k) + if last.Fault? && last.k == k then 1 else 0
  }

  ghost predicate Takes<E>(actions: seq<Action<E>>, p: nat, n: nat, k: nat) {
    && p < n <= |actions| && actions[p] == Proceed(k)
    && forall i | p < i < n :: actions[i] != Proceed(k)
  }

  /** The batch is the front of the queue: as much as the batch size, or all there is. */
  ghost predicate IsFront<E>(cfg: Config, batch: seq<E>, queue: seq<E>) {
    && batch <= queue
    && (cfg.batchSize >= 1 ==> |batch| <= cfg.batchSize && (|batch| == cfg.batchSize || batch == queue))
    && (cfg.batchSize < 1 ==> batch == [])
  }

  /** The flush carries the batch that it took at step p, and has failed with it as often as its
      attempts tell. */
  ghost predicate CarriesSince<E>(
    cfg: Config, states: seq<State<E>>, actions: seq<Action<E>>, p: nat, n: nat, k: nat)
    requires |states| == |actions| + 1 && n < |states| && k < |states[n].flushes|
  {
    && Takes(actions, p, n, k)
    && match states[n].flushes[k]
       case Sending(batch, attempt, _) =>
         IsFront(cfg, batch, states[p].queue) && attempt == 1 + Faults(actions[p..n], k)
       case Pausing(batch, attempt, _) =>
         IsFront(cfg, batch, states[p].queue) && attempt == Faults(actions[p..n], k)
       case _ => false
  }

  lemma FaultsOfMore<E>(actions: seq<Action<E>>, p: nat, n: nat, k: nat)
    requires p <= n < |actions|
    ensures Faults(actions[p..n + 1], k)
         == Faults(actions[p..n], k) + if actions[n].Fault? && actions[n].k == k then 1 else 0
  {
    assert actions[p..n + 1][..n - p] == actions[p..n];
  }

  /** A step of another flush, or of none, leaves a flush that carries a batch as it is. */
  lemma OthersLeaveIt<E>(cfg: Config, s: State<E>, a: Action<E>, k: nat)
    requires Enabled(cfg, s, a) && k < |s.flushes| && !(a.Proceed? && a.k == k) && !(a.Succeed? && a.k == k)
    requires !(a.Fault? && a.k == k) && !(a.Wake? && a.k == k)
    ensures k < |Apply(cfg, s, a).flushes| && Apply(cfg, s, a).flushes[k] == s.flushes[k]
  {}

  lemma TakesNow<E>(cfg: Config, states: seq<State<E>>, actions: seq<Action<E>>, n: nat, k: nat)
    requires IsRun(cfg, states, actions) && n < |actions| && actions[n] == Proceed(k)
    requires k < |states[n + 1].flushes|
    requires states[n + 1].flushes[k].Sending? || states[n + 1].flushes[k].Pausing?
    ensures CarriesSince(cfg, states, actions, n, n + 1, k)
  {
    assert StepAt(cfg, states, actions, n);
    assert actions[n..n + 1] == [actions[n]] && actions[n..n + 1][..0] == [];
  }

  lemma CarriesOn<E>(cfg: Config, states: seq<State<E>>, actions: seq<Action<E>>, p: nat, n: nat, k: nat)
    requires IsRun(cfg, states, actions) && n < |actions| && actions[n] != Proceed(k)
    requires k < |states[n].flushes| && CarriesSince(cfg, states, actions, p, n, k)
    requires k < |states[n + 1].flushes|
    requires states[n + 1].flushes[k].Sending? || states[n + 1].flushes[k].Pausing?
    ensures CarriesSince(cfg, states, actions, p, n + 1, k)
  {
    assert StepAt(cfg, states, actions, n);
    FaultsOfMore(actions, p, n, k);
    if !(actions[n].Succeed? || actions[n].Fault? || actions[n].Wake?) || actions[n].k != k {
      OthersLeaveIt(cfg, states[n], actions[n], k);
    }
  }

  /** A flush that carries a batch carried one before the step, unless it has just taken it. */
  lemma CarriedBefore<E>(cfg: Config, s: State<E>, a: Action<E>, k: nat)
    requires Enabled(cfg, s, a) && a != Proceed(k) && k < |Apply(cfg, s, a).flushes|
    requires var f := Apply(cfg, s, a).flushes[k]; f.Sending? || f.Pausing?
    ensures k < |s.flushes| && (s.flushes[k].Sending? || s.flushes[k].Pausing?)
  {}

  lemma {:induction false} WhenItTook<E>(
    cfg: Config, states: seq<State<E>>, actions: seq<Action<E>>, n: nat, k: nat)
    returns (p: nat)
    requires IsRun(cfg, states, actions) && n < |states| && k < |states[n].flushes|
    requires states[n].flushes[k].Sending? || states[n].flushes[k].Pausing?
    ensures CarriesSince(cfg, states, actions, p, n, k)
  {
    assert n > 0 && StepAt(cfg, states, actions, n - 1);
    if actions[n - 1] == Proceed(k) {
      p := n - 1;
      TakesNow(cfg, states, actions, n - 1, k);
    } else {
      CarriedBefore(cfg, states[n - 1], actions[n - 1], k);
      p := WhenItTook(cfg, states, actions, n - 1, k);
      CarriesOn(cfg, states, actions, p, n - 1, k);
    }
  }

  /** A batch that is stored is the front of the queue as the flush took it, whole and once; a
      batch counts as failed at its last allowed fault; nothing else is stored or fails. */
  lemma BatchesSettleExactly<E>(cfg: Config, states: seq<State<E>>, actions: seq<Action<E>>, n: nat)
    requires IsRun(cfg, states, actions) && n < |actions|
    ensures !actions[n].Succeed? ==>
              states[n + 1].stored == states[n].stored && states[n + 1].flushed == states[n].flushed
    ensures !actions[n].Fault? ==> states[n + 1].failed == states[n].failed
    ensures actions[n].Succeed? ==>
              exists p: nat, batch :: Takes(actions, p, n, actions[n].k) && IsFront(cfg, batch, states[p].queue)
                && states[n + 1].stored == states[n].stored + batch
                && states[n + 1].flushed == states[n].flushed + |batch|
    ensures actions[n].Fault? ==>
              exists p: nat, batch :: Takes(actions, p, n, actions[n].k) && IsFront(cfg, batch, states[p].queue)
                && states[n + 1].failed
                   == states[n].failed
                      + if Faults(actions[p..n + 1], actions[n].k) == cfg.maxAttempts then |batch| else 0
  {
    assert StepAt(cfg, states, actions, n);
    if actions[n].Succeed? || actions[n].Fault? {
      var k := actions[n].k;
      var p := WhenItTook(cfg, states, actions, n, k);
      FaultsOfMore(actions, p, n, k);
      assert IsFront(cfg, states[n].flushes[k].batch, states[p].queue);
    }
  }
}
