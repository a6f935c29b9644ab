/** The promises of the approval service, over every run. */
module ApprovalTheorems {
  import opened Wrappers
  import opened Texts
  import opened Requests
  import opened Bindings
  import opened ApprovalRecords
  import opened ApprovalProtocol
  import opened ApprovalSafety

  // ---------------------------------------------------------------- single use

  ghost predicate ConsumedOk(s: State, c: nat, id: Text) {
    && c in s.tasks && s.tasks[c].call.ConsumeCall? && s.tasks[c].call.id == id
    && s.tasks[c].phase.Finished? && s.tasks[c].phase.result.Consumed?
  }

  /** Over any run, at most one consume call per approval succeeds. */
  lemma ConsumedAtMostOnce(cfg: Config, states: seq<State>, actions: seq<Action>, n: nat, c: nat, d: nat, id: Text)
    requires IsRun(cfg, states, actions) && n < |states|
    requires ConsumedOk(states[n], c, id) && ConsumedOk(states[n], d, id)
    ensures c == d
  {
    RunKeepsInv(cfg, states, actions, n);
  }

  /** A successful consume presents the binding the approval was created with, before the
      approval expires; the stored row says so for good. */
  lemma ConsumptionIsBound(cfg: Config, states: seq<State>, actions: seq<Action>, n: nat, c: nat, id: Text)
    requires IsRun(cfg, states, actions) && n < |states| && ConsumedOk(states[n], c, id)
    ensures id in states[n].table
    ensures var row := states[n].table[id];
            var call := states[n].tasks[c].call;
            && row.status == Approved && row.consumedAt == Some(states[n].tasks[c].now)
            && row.consumedBy == Some(call.agent)
            && states[n].tasks[c].now < row.draft.expiresAt
            && SameBinding(row.draft.binding, BindingOf(call.context))
  {
    RunKeepsInv(cfg, states, actions, n);
    assert TaskHolds(cfg, states[n].table, states[n].tasks[c]);
  }

  // ---------------------------------------------------------------- approved before consumed

  /** The i-th step is the update of a decide call that takes the record from PENDING to its
      own verdict. */
  ghost predicate Settles(states: seq<State>, actions: seq<Action>, i: nat, id: Text, verdict: Status)
    requires |states| == |actions| + 1
  {
    && i < |actions| && actions[i].Ask? && actions[i].c in states[i].tasks
    && states[i].tasks[actions[i].c].call.DecideCall?
    && states[i].tasks[actions[i].c].call.id == id
    && states[i].tasks[actions[i].c].call.status == verdict
    && id in states[i].table && states[i].table[id].status == Pending
    && id in states[i + 1].table && states[i + 1].table[id].status == verdict
  }

  ghost predicate Approves(states: seq<State>, actions: seq<Action>, i: nat, id: Text)
    requires |states| == |actions| + 1
  {
    Settles(states, actions, i, id, Approved)
  }

  /** The j-th step is the update of call `c` that consumes the approved record. */
  ghost predicate Consumes(states: seq<State>, actions: seq<Action>, j: nat, c: nat, id: Text)
    requires j < |actions| && |states| == |actions| + 1
  {
    && actions[j].Ask? && actions[j].c == c
    && id in states[j].table && states[j].table[id].status == Approved
    && states[j].table[id].consumedAt.None?
    && id in states[j + 1].table && states[j + 1].table[id].consumedAt.Some?
  }

  /** The record carries the verdict, the name, the reading and the reason of the decide call. */
  ghost predicate DecidedBy(r: Record, call: Call, now: int)
    requires call.DecideCall?
  {
    && r.status == call.status && r.approverId == Some(call.approver)
    && r.decidedAt == Some(now) && r.decisionReason == call.reason
  }

  lemma ExecSettles(t: Table, backend: Backend, q: Query, pick: seq<Text>, id: Text)
    requires Legal(t, backend, q, pick)
    requires var u := Exec(t, backend, q, pick).0; id in u && u[id].status in {Approved, Denied}
    requires !(id in t && t[id].status in {Approved, Denied})
    ensures q.Decide? && q.id == id && q.status == Exec(t, backend, q, pick).0[id].status
    ensures Decidable(t, id, q.at) && Exec(t, backend, q, pick).0[id].decidedAt == Some(q.at)
    ensures Exec(t, backend, q, pick).0[id].approverId == Some(q.approver)
    ensures Exec(t, backend, q, pick).0[id].decisionReason == q.reason
  {}

  /** Only a decide call makes a record approved or denied, by a reading before its expiry. */
  lemma SettlingStep(cfg: Config, s: State, a: Action, id: Text)
    requires Inv(cfg, s) && Enabled(cfg, s, a)
    requires id in Apply(cfg, s, a).table && Apply(cfg, s, a).table[id].status in {Approved, Denied}
    requires !(id in s.table && s.table[id].status in {Approved, Denied})
    ensures a.Ask? && s.tasks[a.c].call.DecideCall? && s.tasks[a.c].call.id == id
    ensures s.tasks[a.c].call.status == Apply(cfg, s, a).table[id].status
    ensures Decidable(s.table, id, s.tasks[a.c].now)
    ensures DecidedBy(Apply(cfg, s, a).table[id], s.tasks[a.c].call, s.tasks[a.c].now)
  {
    var t := s.tasks[a.c];
    ExecSettles(s.table, cfg.backend, QueryOf(t.call, t.now, t.phase.frame), a.pick, id);
  }

  lemma SettlesNow(cfg: Config, states: seq<State>, actions: seq<Action>, i: nat, id: Text)
    requires IsRun(cfg, states, actions) && i < |actions|
    requires id in states[i + 1].table && states[i + 1].table[id].status in {Approved, Denied}
    requires !(id in states[i].table && states[i].table[id].status in {Approved, Denied})
    ensures Settles(states, actions, i, id, states[i + 1].table[id].status)
    ensures Decidable(states[i].table, id, states[i].tasks[actions[i].c].now)
    ensures DecidedBy(states[i + 1].table[id], states[i].tasks[actions[i].c].call, states[i].tasks[actions[i].c].now)
  {
    RunKeepsInv(cfg, states, actions, i);
    assert StepAt(cfg, states, actions, i);
    SettlingStep(cfg, states[i], actions[i], id);
  }

  /** Every approved or denied record became so at some step. */
  lemma {:induction false} SomeoneSettled(cfg: Config, states: seq<State>, actions: seq<Action>, n: nat, id: Text)
    returns (i: nat)
    requires IsRun(cfg, states, actions) && n < |states|
    requires id in states[n].table && states[n].table[id].status in {Approved, Denied}
    ensures i < n && Settles(states, actions, i, id, states[n].table[id].status)
    ensures Decidable(states[i].table, id, states[i].tasks[actions[i].c].now)
    ensures DecidedBy(states[n].table[id], states[i].tasks[actions[i].c].call, states[i].tasks[actions[i].c].now)
  {
    assert n > 0;
    if id in states[n - 1].table && states[n - 1].table[id].status in {Approved, Denied} {
      i := SomeoneSettled(cfg, states, actions, n - 1, id);
      RunEvolves(cfg, states, actions, n - 1, n);
    } else {
      SettlesNow(cfg, states, actions, n - 1, id);
      i := n - 1;
    }
  }

  /** A sweep may expire any record, a decide or consume call the one it is about. */
  ghost predicate IsAbout(call: Call, id: Text) {
    match call
    case CreateCall(_, _, _) => false
    case DecideCall(about, _, _, _) => about == id
    case ConsumeCall(about, _, _) => about == id
    case SweepCall => true
  }

  /** Step i is the operation of a call about the record; it expires the pending record by the
      call's reading, which is not before the record's expiry. */
  ghost predicate Expires(states: seq<State>, actions: seq<Action>, i: nat, id: Text)
    requires |states| == |actions| + 1
  {
    && i < |actions| && actions[i].Ask? && actions[i].c in states[i].tasks
    && IsAbout(states[i].tasks[actions[i].c].call, id)
    && id in states[i].table && states[i].table[id].status == Pending
    && states[i].table[id].draft.expiresAt <= states[i].tasks[actions[i].c].now
    && id in states[i + 1].table
    && states[i + 1].table[id]
       == states[i].table[id].(status := Expired, decidedAt := Some(states[i].tasks[actions[i].c].now))
  }

  /** Only the expiry of one record and the sweep make a record EXPIRED. */
  lemma ExecExpires(t: Table, backend: Backend, q: Query, pick: seq<Text>, id: Text)
    requires TableSound(t) && Legal(t, backend, q, pick)
    requires id in t && t[id].status != Expired && Exec(t, backend, q, pick).0[id].status == Expired
    requires q.Decide? ==> q.status != Expired
    ensures t[id].status == Pending
    ensures (q.MarkExpired? && q.id == id) || (q.ExpireStale? && t[id].draft.expiresAt <= q.at)
    ensures Exec(t, backend, q, pick).0[id] == t[id].(status := Expired, decidedAt := Some(q.at))
  {}

  lemma ExpiresNow(cfg: Config, states: seq<State>, actions: seq<Action>, i: nat, id: Text)
    requires IsRun(cfg, states, actions) && i < |actions|
    requires id in states[i + 1].table && states[i + 1].table[id].status == Expired
    requires !(id in states[i].table && states[i].table[id].status == Expired)
    ensures Expires(states, actions, i, id)
  {
    RunKeepsInv(cfg, states, actions, i);
    assert StepAt(cfg, states, actions, i);
    var s, a := states[i], actions[i];
    if id !in s.table { StepAdds(cfg, s, a, id); }
    var t := s.tasks[a.c];
    assert TaskHolds(cfg, s.table, t);
    ExecExpires(s.table, cfg.backend, QueryOf(t.call, t.now, t.phase.frame), a.pick, id);
  }

  lemma ExpiredStays(cfg: Config, states: seq<State>, actions: seq<Action>, i: nat, id: Text)
    requires IsRun(cfg, states, actions) && i < |actions|
    requires id in states[i].table && states[i].table[id].status == Expired
    ensures id in states[i + 1].table && states[i + 1].table[id] == states[i].table[id]
  {
    RunKeepsInv(cfg, states, actions, i);
    RunKeepsInv(cfg, states, actions, i + 1);
    StepOfRunEvolves(cfg, states, actions, i);
    assert Sound(states[i].table[id]) && Sound(states[i + 1].table[id]);
  }

  /** Every expired record became so at some step, by the reading of the call that expired it. */
  lemma {:induction false} SomeoneExpired(cfg: Config, states: seq<State>, actions: seq<Action>, n: nat, id: Text)
    returns (i: nat)
    requires IsRun(cfg, states, actions) && n < |states|
    requires id in states[n].table && states[n].table[id].status == Expired
    ensures i < n && Expires(states, actions, i, id)
    ensures states[n].table[id] == states[i + 1].table[id]
  {
    assert n > 0;
    if id in states[n - 1].table && states[n - 1].table[id].status == Expired {
      i := SomeoneExpired(cfg, states, actions, n - 1, id);
      ExpiredStays(cfg, states, actions, n - 1, id);
    } else {
      ExpiresNow(cfg, states, actions, n - 1, id);
      i := n - 1;
    }
  }

  lemma {:induction false} WhenItConsumed(cfg: Config, states: seq<State>, actions: seq<Action>, n: nat, c: nat)
    returns (j: nat)
    requires IsRun(cfg, states, actions) && n < |states| && c in states[n].tasks && Wins(states[n].tasks[c])
    ensures j < n && Consumes(states, actions, j, c, states[n].tasks[c].call.id)
  {
    assert n > 0;
    var s, a := states[n - 1], actions[n - 1];
    assert StepAt(cfg, states, actions, n - 1);
    TasksOfStep(cfg, s, a);
    if c in s.tasks && Wins(s.tasks[c]) {
      j := WhenItConsumed(cfg, states, actions, n - 1, c);
    } else {
      assert a.c == c && StartsToWin(cfg, s, a);
      NewWinnerIsFirst(cfg, s, a);
      j := n - 1;
    }
  }

  /** Whoever consumes an approval does so after some decide call approved it. */
  lemma ConsumedAfterApproved(cfg: Config, states: seq<State>, actions: seq<Action>, n: nat, c: nat, id: Text)
    requires IsRun(cfg, states, actions) && n < |states| && ConsumedOk(states[n], c, id)
    ensures exists i, j :: 0 <= i < j < n && Approves(states, actions, i, id) && Consumes(states, actions, j, c, id)
  {
    var j := WhenItConsumed(cfg, states, actions, n, c);
    var i := SomeoneSettled(cfg, states, actions, j, id);
    assert Approves(states, actions, i, id);
  }

  /** An approved row carries the verdict of the call that approved it. The stored times are the
      clock readings that the approving and the consuming call took when they began; so the
      decision time is at most the consumption time exactly when the approver took its reading no
      later than the consumer. */
  lemma TimesAreTheCallersClocks(cfg: Config, states: seq<State>, actions: seq<Action>, n: nat, c: nat, id: Text)
    requires IsRun(cfg, states, actions) && n < |states| && ConsumedOk(states[n], c, id)
    ensures id in states[n].table
    ensures exists i :: 0 <= i < n && Approves(states, actions, i, id) && actions[i].c in states[n].tasks
              && states[n].tasks[actions[i].c].call.DecideCall?
              && DecidedBy(states[n].table[id], states[n].tasks[actions[i].c].call, states[n].tasks[actions[i].c].now)
              && states[n].table[id].consumedAt == Some(states[n].tasks[c].now)
  {
    ConsumptionIsBound(cfg, states, actions, n, c, id);
    var i := SomeoneSettled(cfg, states, actions, n, id);
    assert Approves(states, actions, i, id);
    RunEvolves(cfg, states, actions, i, n);
  }

  // ---------------------------------------------------------------- truthful refusals

  /** The reading of a result that its name suggests, for a decide or a consume call. The
      record is a stage of the stored row. An `expired` record is EXPIRED exactly if it left
      PENDING by a clock reading not before its expiry; otherwise it was decided before the
      expiry that this call's clock has reached. */
  ghost predicate TellsTruth(t: Table, call: Call, now: int, result: Outcome)
    requires call.DecideCall? || call.ConsumeCall?
  {
    match result
    case AlreadyConsumed(r) => call.ConsumeCall? && StageOf(t, call.id, r) && r.consumedAt.Some?
    case AlreadyDecided(r) =>
      call.DecideCall? && StageOf(t, call.id, r) && (r.status == Approved || r.status == Denied)
    case IsExpired(r) =>
      && StageOf(t, call.id, r) && r.decidedAt.Some?
      && (r.status == Expired <==> r.draft.expiresAt <= r.decidedAt.value)
      && (r.status != Expired ==> (r.status == Approved || r.status == Denied) && r.draft.expiresAt <= now)
    case NotApproved(r) =>
      call.ConsumeCall? && StageOf(t, call.id, r) && (r.status == Pending || r.status == Denied)
    case BindingMismatch(r) =>
      && call.ConsumeCall? && StageOf(t, call.id, r)
      && !SameBinding(r.draft.binding, BindingOf(call.context))
    case Decided(r) =>
      && call.DecideCall? && StageOf(t, call.id, r) && r.status == call.status
      && r.approverId == Some(call.approver) && r.decidedAt == Some(now)
    case Consumed(r) => call.ConsumeCall? && StageOf(t, call.id, r) && r.consumedAt == Some(now)
    case NotFound => true
    case Failed => true
    case _ => false
  }

  /** The record is the stored row, or an earlier stage of it. */
  ghost predicate StageOf(t: Table, id: Text, r: Record) {
    r.draft.id == id && Known(t, r)
  }

  /** Every answer tells the truth about the record it returns, also when it lost a race. */
  lemma AnswersAreTruthful(cfg: Config, states: seq<State>, actions: seq<Action>, n: nat, c: nat)
    requires IsRun(cfg, states, actions) && n < |states|
    requires c in states[n].tasks && states[n].tasks[c].phase.Finished?
    requires states[n].tasks[c].call.DecideCall? || states[n].tasks[c].call.ConsumeCall?
    ensures var task := states[n].tasks[c];
            TellsTruth(states[n].table, task.call, task.now, task.phase.result)
  {
    RunKeepsInv(cfg, states, actions, n);
    assert TaskHolds(cfg, states[n].table, states[n].tasks[c]);
  }

  /** Step i is the update of a decide call whose reading was before the record's expiry, and it
      settles the pending record. */
  ghost predicate DecidedInTime(states: seq<State>, actions: seq<Action>, i: nat, id: Text)
    requires |states| == |actions| + 1
  {
    && (Settles(states, actions, i, id, Approved) || Settles(states, actions, i, id, Denied))
    && states[i].tasks[actions[i].c].now < states[i].table[id].draft.expiresAt
  }

  /** What was decided in time is no longer EXPIRED, or pending, at any later state. */
  lemma DecidedStays(cfg: Config, states: seq<State>, actions: seq<Action>, i: nat, n: nat, id: Text)
    requires IsRun(cfg, states, actions) && i < n < |states| && DecidedInTime(states, actions, i, id)
    ensures id in states[n].table && states[n].table[id].status in {Approved, Denied}
  {
    RunEvolves(cfg, states, actions, i + 1, n);
  }

  /** A call that answers `expired` shows a record that is not EXPIRED exactly when some decide
      call that took its reading before the expiry has settled the record by then. */
  lemma ExpiredShowsADecisionExactly(
    cfg: Config, states: seq<State>, actions: seq<Action>, n: nat, c: nat)
    requires IsRun(cfg, states, actions) && n < |states| && c in states[n].tasks
    requires states[n].tasks[c].phase.Finished? && states[n].tasks[c].phase.result.IsExpired?
    ensures var r := states[n].tasks[c].phase.result.record;
            r.status != Expired <==> exists i: nat :: i < n && DecidedInTime(states, actions, i, r.draft.id)
  {
    RunKeepsInv(cfg, states, actions, n);
    assert TaskHolds(cfg, states[n].table, states[n].tasks[c]);
    var r := states[n].tasks[c].phase.result.record;
    var id := r.draft.id;
    assert Known(states[n].table, r) && states[n].table[id].status == r.status;
    if r.status != Expired {
      var i := SomeoneSettled(cfg, states, actions, n, id);
      assert DecidedInTime(states, actions, i, id);
    }
    if i: nat :| i < n && DecidedInTime(states, actions, i, id) {
      DecidedStays(cfg, states, actions, i, n, id);
    }
  }

  /** Without faults, a decide, consume or sweep call never fails; a create call may (see
      `CreateMayFailWithoutFault`). */
  ghost predicate OnlyCreatesFail(s: State) {
    forall c | c in s.tasks :: FailsOnlyAsCreate(s.tasks[c])
  }

  lemma ExecThrowsOnInsert(t: Table, backend: Backend, q: Query, pick: seq<Text>)
    requires Legal(t, backend, q, pick) && Exec(t, backend, q, pick).1 == Threw
    ensures q.Insert?
  {}

  lemma ResumedFails(cfg: Config, t: Table, task: Task, at: int, id: Text)
    requires TaskHolds(cfg, t, task) && task.phase.Answered? && !task.call.CreateCall?
    requires task.phase.reply != Threw
    ensures var f := task.phase.frame;
            Resumed(cfg, task.call, task.now, f, task.phase.reply, at, id) != Finished(Failed)
  {}

  lemma StepWithoutFault(cfg: Config, s: State, a: Action)
    requires Inv(cfg, s) && Enabled(cfg, s, a) && OnlyCreatesFail(s) && !a.Fail? && !a.Lose?
    ensures OnlyCreatesFail(Apply(cfg, s, a))
  {
    TasksOfStep(cfg, s, a);
    match a
    case Ask(c, pick) => AskWithoutFault(cfg, s.table, s.tasks[c], pick);
    case Resume(c, at, id) =>
      assert TaskHolds(cfg, s.table, s.tasks[c]);
      ResumeWithoutFault(cfg, s.table, s.tasks[c], at, id);
    case _ =>
  }

  /** What `OnlyCreatesFail` says of one call. */
  ghost predicate FailsOnlyAsCreate(t: Task) {
    match t.phase
    case Answered(f, Threw) => f.Inserting?
    case Finished(Failed) => t.call.CreateCall?
    case _ => true
  }

  lemma AskWithoutFault(cfg: Config, t: Table, task: Task, pick: seq<Text>)
    requires task.phase.Asked? && Suits(task.call, task.phase.frame)
    requires Legal(t, cfg.backend, QueryOf(task.call, task.now, task.phase.frame), pick)
    ensures var f := task.phase.frame;
            FailsOnlyAsCreate(task.(phase :=
              Answered(f, Exec(t, cfg.backend, QueryOf(task.call, task.now, f), pick).1)))
  {
    var q := QueryOf(task.call, task.now, task.phase.frame);
    if Exec(t, cfg.backend, q, pick).1 == Threw {
      ExecThrowsOnInsert(t, cfg.backend, q, pick);
    }
  }

  lemma ResumeWithoutFault(cfg: Config, t: Table, task: Task, at: int, id: Text)
    requires TaskHolds(cfg, t, task) && task.phase.Answered? && FailsOnlyAsCreate(task)
    ensures var f := task.phase.frame;
            FailsOnlyAsCreate(task.(phase := Resumed(cfg, task.call, task.now, f, task.phase.reply, at, id)))
  {
    ResumedIsNotAnswered(cfg, task.call, task.now, task.phase.frame, task.phase.reply, at, id);
    if !task.call.CreateCall? {
      ResumedFails(cfg, t, task, at, id);
    }
  }

  lemma {:induction false} OnlyFaultsFail(cfg: Config, states: seq<State>, actions: seq<Action>, n: nat)
    requires IsRun(cfg, states, actions) && n < |states|
    requires forall i | 0 <= i < n :: !actions[i].Fail? && !actions[i].Lose?
    ensures OnlyCreatesFail(states[n])
  {
    if n > 0 {
      var s, a := states[n - 1], actions[n - 1];
      OnlyFaultsFail(cfg, states, actions, n - 1);
      RunKeepsInv(cfg, states, actions, n - 1);
      assert StepAt(cfg, states, actions, n - 1) && !a.Fail? && !a.Lose?;
      FaultlessStep(cfg, s, a, states[n]);
    }
  }

  lemma FaultlessStep(cfg: Config, s: State, a: Action, u: State)
    requires Inv(cfg, s) && IsStep(cfg, s, a, u) && OnlyCreatesFail(s) && !a.Fail? && !a.Lose?
    ensures OnlyCreatesFail(u)
  {
    StepWithoutFault(cfg, s, a);
  }

  // ---------------------------------------------------------------- not found means absent

  /** The call has learned, or is about to answer, that its record does not exist. */
  ghost predicate FoundNothing(t: Task) {
    && (t.call.DecideCall? || t.call.ConsumeCall?)
    && match t.phase
       case Answered(Reading, Row(None)) => true
       case Finished(NotFound) => true
       case _ => false
  }

  lemma AskFindsNothing(cfg: Config, t: Table, task: Task, pick: seq<Text>)
    requires task.phase.Asked? && Suits(task.call, task.phase.frame)
    requires Legal(t, cfg.backend, QueryOf(task.call, task.now, task.phase.frame), pick)
    requires var f := task.phase.frame;
             var reply := Exec(t, cfg.backend, QueryOf(task.call, task.now, f), pick).1;
             FoundNothing(task.(phase := Answered(f, reply)))
    ensures task.call.id !in t
  {}

  /** Going on with an answer finds nothing only if the answer had found nothing. */
  lemma ResumeFindsNothing(cfg: Config, t: Table, task: Task, at: int, id: Text)
    requires TaskHolds(cfg, t, task) && task.phase.Answered?
    requires var f := task.phase.frame;
             FoundNothing(task.(phase := Resumed(cfg, task.call, task.now, f, task.phase.reply, at, id)))
    ensures FoundNothing(task)
  {}

  lemma FindsNothingNow(cfg: Config, s: State, a: Action)
    requires cfg.available && Inv(cfg, s) && Enabled(cfg, s, a)
    requires FoundNothing(Apply(cfg, s, a).tasks[a.c]) && !(a.c in s.tasks && FoundNothing(s.tasks[a.c]))
    ensures a.c in s.tasks && a.Ask? && s.tasks[a.c].call.id !in s.table
  {
    match a
    case Ask(c, pick) => AskFindsNothing(cfg, s.table, s.tasks[c], pick);
    case Resume(c, at, id) =>
      assert TaskHolds(cfg, s.table, s.tasks[c]);
      ResumeFindsNothing(cfg, s.table, s.tasks[c], at, id);
    case _ =>
  }

  /** A call answers `not found` only for an identifier that was unknown when it began. */
  lemma {:induction false} NotFoundWasAbsent(
    cfg: Config, states: seq<State>, actions: seq<Action>, m: nat, n: nat, c: nat)
    requires cfg.available && IsRun(cfg, states, actions) && m <= n < |states|
    requires c !in states[m].tasks && c in states[n].tasks && FoundNothing(states[n].tasks[c])
    ensures states[n].tasks[c].call.id !in states[m].table
  {
    var s, a := states[n - 1], actions[n - 1];
    RunKeepsInv(cfg, states, actions, n - 1);
    assert StepAt(cfg, states, actions, n - 1);
    TasksOfStep(cfg, s, a);
    if c in s.tasks && FoundNothing(s.tasks[c]) {
      NotFoundWasAbsent(cfg, states, actions, m, n - 1, c);
    } else {
      FindsNothingNow(cfg, s, a);
      RunEvolves(cfg, states, actions, m, n - 1);
    }
  }

  // ---------------------------------------------------------------- faults are thrown

  /** An operation of the call has failed, or its answer was lost, before state n. */
  ghost predicate Faulted(actions: seq<Action>, n: nat, c: nat)
    requires n <= |actions|
  {
    exists i :: 0 <= i < n && (actions[i] == Fail(c) || actions[i] == Lose(c))
  }

  /** The call has thrown, or is about to. */
  ghost predicate Throws(t: Task) {
    match t.phase
    case Answered(_, Threw) => true
    case Finished(Failed) => true
    case _ => false
  }

  lemma AskDoesNotThrow(cfg: Config, s: State, c: nat, pick: seq<Text>)
    requires Inv(cfg, s) && Enabled(cfg, s, Ask(c, pick)) && !s.tasks[c].call.CreateCall?
    ensures !Throws(Apply(cfg, s, Ask(c, pick)).tasks[c])
  {
    assert TaskHolds(cfg, s.table, s.tasks[c]);
    AskWithoutFault(cfg, s.table, s.tasks[c], pick);
  }

  lemma ResumeThrowsExactly(cfg: Config, s: State, a: Action)
    requires Inv(cfg, s) && Enabled(cfg, s, a) && a.Resume? && !s.tasks[a.c].call.CreateCall?
    ensures Throws(Apply(cfg, s, a).tasks[a.c]) <==> Throws(s.tasks[a.c])
  {
    var t := s.tasks[a.c];
    assert TaskHolds(cfg, s.table, t);
    ResumedIsNotAnswered(cfg, t.call, t.now, t.phase.frame, t.phase.reply, a.at, a.id);
    if t.phase.reply != Threw { ResumedFails(cfg, s.table, t, a.at, a.id); }
  }

  lemma StepThrowsExactly(cfg: Config, s: State, a: Action, c: nat)
    requires Inv(cfg, s) && Enabled(cfg, s, a) && c in s.tasks && !s.tasks[c].call.CreateCall?
    ensures Throws(Apply(cfg, s, a).tasks[c]) <==> Throws(s.tasks[c]) || a == Fail(c) || a == Lose(c)
  {
    if a.c == c && a.Ask? {
      AskDoesNotThrow(cfg, s, c, a.pick);
    } else if a.c == c && a.Resume? {
      ResumeThrowsExactly(cfg, s, a);
    }
  }

  /** A decide, consume or sweep call throws exactly when an operation of its own has failed or
      lost its answer: nothing else makes it throw, and no such fault is passed over. */
  lemma {:induction false} ThrowsExactlyOnFaults(
    cfg: Config, states: seq<State>, actions: seq<Action>, n: nat, c: nat)
    requires IsRun(cfg, states, actions) && n < |states| && c in states[n].tasks
    requires !states[n].tasks[c].call.CreateCall?
    ensures Throws(states[n].tasks[c]) <==> Faulted(actions, n, c)
  {
    assert n > 0;
    var s, a := states[n - 1], actions[n - 1];
    RunKeepsInv(cfg, states, actions, n - 1);
    assert StepAt(cfg, states, actions, n - 1);
    TasksOfStep(cfg, s, a);
    if c in s.tasks {
      ThrowsExactlyOnFaults(cfg, states, actions, n - 1, c);
      StepThrowsExactly(cfg, s, a, c);
    } else {
      NoFaultYet(cfg, states, actions, n - 1, c);
    }
  }

  /** A call that has not begun has met no fault. */
  lemma {:induction false} NoFaultYet(cfg: Config, states: seq<State>, actions: seq<Action>, n: nat, c: nat)
    requires IsRun(cfg, states, actions) && n < |states| && c !in states[n].tasks
    ensures !Faulted(actions, n, c)
  {
    if n > 0 {
      StepOfRunEvolves(cfg, states, actions, n - 1);
      assert StepAt(cfg, states, actions, n - 1);
      NoFaultYet(cfg, states, actions, n - 1, c);
    }
  }

  /** Step i is taken by the create call on a first lookup that failed, or on a second one that
      failed or found nothing. */
  ghost predicate GivesUp(states: seq<State>, actions: seq<Action>, i: nat, c: nat)
    requires |states| == |actions| + 1
  {
    && i < |actions| && actions[i].Resume? && actions[i].c == c
    && c in states[i].tasks && states[i].tasks[c].phase.Answered?
    && match states[i].tasks[c].phase.frame
       case Finding => states[i].tasks[c].phase.reply == Threw
       case Refinding(_) => states[i].tasks[c].phase.reply in {Threw, Row(None)}
       case _ => false
  }

  lemma CreateStepThrows(cfg: Config, states: seq<State>, actions: seq<Action>, i: nat, c: nat)
    requires IsRun(cfg, states, actions) && i < |actions| && c in states[i].tasks && c in states[i + 1].tasks
    requires states[i].tasks[c].call.CreateCall?
    ensures states[i + 1].tasks[c].phase == Finished(Failed)
       <==> states[i].tasks[c].phase == Finished(Failed) || GivesUp(states, actions, i, c)
  {
    RunKeepsInv(cfg, states, actions, i);
    assert StepAt(cfg, states, actions, i);
    assert TaskHolds(cfg, states[i].table, states[i].tasks[c]);
  }

  /** A create call throws exactly when its first lookup failed, or when its insertion did and
      the second lookup then failed or found nothing; a failed insertion alone is no reason. */
  lemma {:induction false} CreateThrowsExactly(
    cfg: Config, states: seq<State>, actions: seq<Action>, n: nat, c: nat)
    requires IsRun(cfg, states, actions) && n < |states| && c in states[n].tasks
    requires states[n].tasks[c].call.CreateCall?
    ensures states[n].tasks[c].phase == Finished(Failed) <==> exists i: nat :: i < n && GivesUp(states, actions, i, c)
  {
    assert n > 0;
    StepOfRunEvolves(cfg, states, actions, n - 1);
    if c in states[n - 1].tasks {
      CreateThrowsExactly(cfg, states, actions, n - 1, c);
      CreateStepThrows(cfg, states, actions, n - 1, c);
    } else {
      BeginsWithoutThrowing(cfg, states, actions, n, c);
    }
  }

  lemma BeginsWithoutThrowing(cfg: Config, states: seq<State>, actions: seq<Action>, n: nat, c: nat)
    requires IsRun(cfg, states, actions) && 0 < n < |states| && c in states[n].tasks && c !in states[n - 1].tasks
    ensures states[n].tasks[c].phase != Finished(Failed)
    ensures forall i: nat | i < n :: !GivesUp(states, actions, i, c)
  {
    assert StepAt(cfg, states, actions, n - 1);
    forall i: nat | i < n ensures c !in states[i].tasks {
      RunEvolves(cfg, states, actions, i, n - 1);
    }
  }

  // ---------------------------------------------------------------- one pending record per call

  /** With the partial unique index, racing creators never leave two pending records for
      one binding. */
  lemma OnePendingPerBinding(cfg: Config, states: seq<State>, actions: seq<Action>, n: nat, a: Text, b: Text)
    requires IsRun(cfg, states, actions) && n < |states| && cfg.backend == Postgres
    requires a in states[n].table && b in states[n].table
    requires states[n].table[a].status == Pending && states[n].table[b].status == Pending
    requires SameBinding(states[n].table[a].draft.binding, states[n].table[b].draft.binding)
    ensures a == b
  {
    RunKeepsInv(cfg, states, actions, n);
  }

  ghost predicate PendingPair(t: Table, a: Text, b: Text) {
    && a in t && b in t && a != b && t[a].status == Pending && t[b].status == Pending
    && SameBinding(t[a].draft.binding, t[b].draft.binding)
  }

  /** Two pending records have one binding. */
  ghost predicate TwoPending(t: Table) {
    exists a, b :: PendingPair(t, a, b)
  }

  /** Step i inserts a record beside a pending one that has its binding. */
  ghost predicate InsertsBeside(states: seq<State>, actions: seq<Action>, i: nat)
    requires |states| == |actions| + 1
  {
    && i < |actions|
    && exists a, b :: a in states[i].table && states[i].table[a].status == Pending
                        && b !in states[i].table && PendingPair(states[i + 1].table, a, b)
  }

  /** A step that leaves two pending records of one binding inserts one of them. */
  lemma SecondPendingIsInserted(cfg: Config, s: State, a: Action, x: Text, y: Text)
    requires Inv(cfg, s) && Enabled(cfg, s, a)
    requires PendingPair(Apply(cfg, s, a).table, x, y) && !TwoPending(s.table)
    ensures (x in s.table && s.table[x].status == Pending && y !in s.table)
         || (y in s.table && s.table[y].status == Pending && x !in s.table)
  {
    var u := Apply(cfg, s, a).table;
    StepEvolves(cfg, s, a);
    if x in s.table { PendingBefore(s.table, u, x); }
    if y in s.table { PendingBefore(s.table, u, y); }
    if x !in s.table { StepAdds(cfg, s, a, x); }
    if y !in s.table { StepAdds(cfg, s, a, y); }
    if x in s.table && y in s.table { assert PendingPair(s.table, x, y); }
  }

  lemma BesideNow(cfg: Config, states: seq<State>, actions: seq<Action>, i: nat)
    requires IsRun(cfg, states, actions) && i < |actions|
    requires TwoPending(states[i + 1].table) && !TwoPending(states[i].table)
    ensures InsertsBeside(states, actions, i)
  {
    RunKeepsInv(cfg, states, actions, i);
    assert StepAt(cfg, states, actions, i);
    var x, y :| PendingPair(states[i + 1].table, x, y);
    SecondPendingIsInserted(cfg, states[i], actions[i], x, y);
    assert PendingPair(states[i + 1].table, y, x);
  }

  /** Over a run two pending records of one binding come about exactly when an insertion meets
      a pending record that has its binding. */
  lemma {:induction false} TwoPendingExactly(cfg: Config, states: seq<State>, actions: seq<Action>, n: nat)
    requires IsRun(cfg, states, actions) && n < |states|
    ensures (exists m: nat :: m <= n && TwoPending(states[m].table))
       <==> exists i: nat :: i < n && InsertsBeside(states, actions, i)
  {
    if i: nat :| i < n && InsertsBeside(states, actions, i) {
      assert TwoPending(states[i + 1].table);
    }
    if n > 0 {
      TwoPendingExactly(cfg, states, actions, n - 1);
      if TwoPending(states[n].table) && !TwoPending(states[n - 1].table) {
        BesideNow(cfg, states, actions, n - 1);
      }
    }
  }

  /** Step i is the first lookup of the create call c. */
  ghost predicate LooksUp(states: seq<State>, actions: seq<Action>, i: nat, c: nat)
    requires |states| == |actions| + 1
  {
    && i < |actions| && actions[i].Ask? && actions[i].c == c
    && c in states[i].tasks && states[i].tasks[c].call.CreateCall? && states[i].tasks[c].phase == Asked(Finding)
  }

  /** The record is in the table, is pending, and has the key of the call's binding. */
  ghost predicate IsReusable(cfg: Config, t: Table, call: Call, r: Record)
    requires call.CreateCall?
  {
    && r.draft.id in t && t[r.draft.id] == r && r.status == Pending
    && SameKey(cfg.backend, r.draft.binding, BindingOf(call.context))
  }

  /** The phases of a create call from its first lookup on, if that met this record. */
  ghost predicate Reuses(p: Phase, r: Record) {
    || p == Answered(Finding, Row(Some(r))) || p == Answered(Finding, Threw)
    || p == Finished(Existing(r)) || p == Finished(Failed)
  }

  lemma LookupAnswers(cfg: Config, states: seq<State>, actions: seq<Action>, i: nat, c: nat)
    returns (row: Option<Record>)
    requires IsRun(cfg, states, actions) && LooksUp(states, actions, i, c)
    ensures c in states[i + 1].tasks && states[i + 1].tasks[c].phase == Answered(Finding, Row(row))
    ensures match row
            case Some(r) => IsReusable(cfg, states[i].table, states[i].tasks[c].call, r)
            case None => forall r :: !IsReusable(cfg, states[i].table, states[i].tasks[c].call, r)
  {
    RunKeepsInv(cfg, states, actions, i);
    assert StepAt(cfg, states, actions, i);
    var t, pick := states[i].table, actions[i].pick;
    var binding := BindingOf(states[i].tasks[c].call.context);
    row := if pick == [] then None else Some(t[pick[0]]);
    if pick == [] {
      forall r ensures !IsReusable(cfg, t, states[i].tasks[c].call, r) {
        assert r.draft.id !in Candidates(t, cfg.backend, binding);
      }
    }
  }

  /** A call that met a record answers with it, or throws because its answer was lost. */
  lemma {:induction false} ReusesWhatItMet(
    cfg: Config, states: seq<State>, actions: seq<Action>, i: nat, n: nat, c: nat, r: Record)
    requires IsRun(cfg, states, actions) && i < n < |states| && c in states[i + 1].tasks
    requires states[i + 1].tasks[c].phase == Answered(Finding, Row(Some(r))) && states[i + 1].tasks[c].call.CreateCall?
    ensures c in states[n].tasks && Reuses(states[n].tasks[c].phase, r)
  {
    RunEvolves(cfg, states, actions, i + 1, n);
    if i + 1 < n {
      ReusesWhatItMet(cfg, states, actions, i, n - 1, c, r);
      RunEvolves(cfg, states, actions, i + 1, n - 1);
      assert StepAt(cfg, states, actions, n - 1);
      TasksOfStep(cfg, states[n - 1], actions[n - 1]);
    }
  }

  /** When the first lookup of a create call meets a pending record with the key of its binding,
      the call ends with that record, unless the lookup's answer was lost; it creates a record
      only when the lookup met none. */
  lemma ReusesExactly(cfg: Config, states: seq<State>, actions: seq<Action>, i: nat, n: nat, c: nat)
    requires IsRun(cfg, states, actions) && LooksUp(states, actions, i, c) && i < n < |states|
    requires c in states[n].tasks && states[n].tasks[c].phase.Finished?
    ensures var call, result := states[i].tasks[c].call, states[n].tasks[c].phase.result;
            (exists r :: IsReusable(cfg, states[i].table, call, r)) ==>
              || (result == Failed && Lose(c) in actions[i..n])
              || (result.Existing? && IsReusable(cfg, states[i].table, call, result.record))
    ensures states[n].tasks[c].phase.result.Created? ==>
              forall r :: !IsReusable(cfg, states[i].table, states[i].tasks[c].call, r)
  {
    var row := LookupAnswers(cfg, states, actions, i, c);
    RunEvolves(cfg, states, actions, i, i + 1);
    if row.Some? {
      ReusesWhatItMet(cfg, states, actions, i, n, c, row.value);
      if states[n].tasks[c].phase == Finished(Failed) { LosesAfterLookup(cfg, states, actions, i, n, c, row.value); }
    }
  }

  lemma {:induction false} LosesAfterLookup(
    cfg: Config, states: seq<State>, actions: seq<Action>, i: nat, n: nat, c: nat, r: Record)
    requires IsRun(cfg, states, actions) && i + 1 < n < |states| && c in states[i + 1].tasks
    requires states[i + 1].tasks[c].phase == Answered(Finding, Row(Some(r))) && states[i + 1].tasks[c].call.CreateCall?
    requires c in states[n].tasks && states[n].tasks[c].phase in {Answered(Finding, Threw), Finished(Failed)}
    ensures Lose(c) in actions[i..n]
  {
    ReusesWhatItMet(cfg, states, actions, i, n - 1, c, r);
    RunEvolves(cfg, states, actions, i + 1, n - 1);
    assert StepAt(cfg, states, actions, n - 1);
    TasksOfStep(cfg, states[n - 1], actions[n - 1]);
    assert actions[i..n] == actions[i..n - 1] + [actions[n - 1]];
    if actions[n - 1] != Lose(c) {
      LosesAfterLookup(cfg, states, actions, i, n - 1, c, r);
    }
  }

  /** The two calls are the same operation with structurally equal arguments. */
  ghost predicate SameOperation(a: SecurityContext, b: SecurityContext) {
    && a.agentId == b.agentId && a.serverId == b.serverId && a.rpcMethod == b.rpcMethod
    && a.toolName == b.toolName && SameArguments(a.toolArguments, b.toolArguments)
  }

  /** The i-th step is the insertion of a record by the create call c. */
  ghost predicate Inserts(states: seq<State>, actions: seq<Action>, i: nat, c: nat, id: Text)
    requires |states| == |actions| + 1
  {
    && i < |actions| && actions[i].Ask? && actions[i].c == c
    && c in states[i].tasks && states[i].tasks[c].call.CreateCall?
    && id !in states[i].table && id in states[i + 1].table
  }

  /** A step that adds a record is the insertion of a draft that its create call made. */
  lemma InsertionStep(cfg: Config, s: State, a: Action, id: Text)
    requires Inv(cfg, s) && Enabled(cfg, s, a) && id !in s.table && id in Apply(cfg, s, a).table
    ensures a.Ask? && a.c in s.tasks && s.tasks[a.c].call.CreateCall? && ValidCall(s.tasks[a.c].call)
    ensures DraftOf(cfg, s.tasks[a.c].call, Apply(cfg, s, a).table[id].draft)
  {
    StepAdds(cfg, s, a, id);
    assert TaskHolds(cfg, s.table, s.tasks[a.c]);
  }

  /** Every stored record was inserted at some step, with the binding of that step's call. */
  lemma {:induction false} SomeoneInserted(cfg: Config, states: seq<State>, actions: seq<Action>, n: nat, id: Text)
    returns (i: nat, c: nat)
    requires IsRun(cfg, states, actions) && n < |states| && id in states[n].table
    ensures i < n && Inserts(states, actions, i, c, id)
    ensures c in states[n].tasks && states[n].tasks[c].call == states[i].tasks[c].call
    ensures Shaped(states[n].tasks[c].call.context)
    ensures DraftOf(cfg, states[n].tasks[c].call, states[n].table[id].draft)
    ensures states[n].table[id].draft.binding == BindingOf(states[n].tasks[c].call.context)
  {
    assert n > 0;
    StepOfRunEvolves(cfg, states, actions, n - 1);
    if id in states[n - 1].table {
      i, c := SomeoneInserted(cfg, states, actions, n - 1, id);
    } else {
      i, c := n - 1, actions[n - 1].c;
      InsertsNow(cfg, states, actions, i, id);
    }
  }

  lemma InsertsNow(cfg: Config, states: seq<State>, actions: seq<Action>, i: nat, id: Text)
    requires IsRun(cfg, states, actions) && i < |actions| && id !in states[i].table && id in states[i + 1].table
    ensures var c := actions[i].c;
            && Inserts(states, actions, i, c, id) && Shaped(states[i].tasks[c].call.context)
            && DraftOf(cfg, states[i].tasks[c].call, states[i + 1].table[id].draft)
            && states[i + 1].table[id].draft.binding == BindingOf(states[i].tasks[c].call.context)
  {
    RunKeepsInv(cfg, states, actions, i);
    assert StepAt(cfg, states, actions, i);
    InsertionStep(cfg, states[i], actions[i], id);
  }

  /** A create call, and the approval whose identifier it handed to its caller. */
  ghost predicate HandsOut(s: State, e: nat, id: Text) {
    && e in s.tasks && s.tasks[e].call.CreateCall? && s.tasks[e].phase.Finished?
    && match s.tasks[e].phase.result
       case Created(r) => r.draft.id == id
       case Existing(r) => r.draft.id == id
       case _ => false
  }

  /** The repository's lookup by binding is exact: PostgreSQL compares columns, and joined
      keys do not confuse texts without NUL. */
  ghost predicate LookupsAreExact(cfg: Config, s: State) {
    cfg.backend == Postgres
    || forall c | c in s.tasks && s.tasks[c].call.CreateCall? :: PlainKey(BindingOf(s.tasks[c].call.context))
  }

  lemma HandedOutRow(cfg: Config, states: seq<State>, actions: seq<Action>, n: nat, e: nat, id: Text)
    requires IsRun(cfg, states, actions) && n < |states| && LookupsAreExact(cfg, states[n])
    requires HandsOut(states[n], e, id)
    ensures id in states[n].table && Shaped(states[n].tasks[e].call.context)
    ensures SameBinding(states[n].table[id].draft.binding, BindingOf(states[n].tasks[e].call.context))
  {
    RunKeepsInv(cfg, states, actions, n);
    var s := states[n];
    assert TaskHolds(cfg, s.table, s.tasks[e]);
    var i, c := SomeoneInserted(cfg, states, actions, n, id);
    CoalescingIsExactOnParsedContexts(s.tasks[c].call.context, s.tasks[e].call.context);
    if cfg.backend == Memory {
      PlainKeyIsTheRowKey(BindingOf(s.tasks[c].call.context), BindingOf(s.tasks[e].call.context));
    }
  }

  /** A create call reuses a pending record only for the very operation of the call that
      inserted it. */
  lemma ReusedRecordIsTheSameCall(cfg: Config, states: seq<State>, actions: seq<Action>, n: nat, e: nat, id: Text)
    requires IsRun(cfg, states, actions) && n < |states| && LookupsAreExact(cfg, states[n])
    requires HandsOut(states[n], e, id)
    ensures exists i: nat, c: nat :: i < n && Inserts(states, actions, i, c, id) && c in states[n].tasks
                           && states[n].tasks[c].call == states[i].tasks[c].call
                           && SameOperation(states[n].tasks[c].call.context, states[n].tasks[e].call.context)
  {
    HandedOutRow(cfg, states, actions, n, e, id);
    var i, c := SomeoneInserted(cfg, states, actions, n, id);
    BindingIdentifiesTheCall(states[n].tasks[c].call.context, states[n].tasks[e].call.context);
  }

  /** Whatever is executed on an approval is the operation of the call that inserted the
      approval. */
  lemma ConsumedCallIsTheApprovedCall(cfg: Config, states: seq<State>, actions: seq<Action>, n: nat, c: nat, id: Text)
    requires IsRun(cfg, states, actions) && n < |states| && ConsumedOk(states[n], c, id)
    ensures exists i: nat, m: nat :: i < n && Inserts(states, actions, i, m, id) && m in states[n].tasks
                           && states[n].tasks[m].call == states[i].tasks[m].call
                           && SameOperation(states[n].tasks[m].call.context, states[n].tasks[c].call.context)
  {
    ConsumptionIsBound(cfg, states, actions, n, c, id);
    RunKeepsInv(cfg, states, actions, n);
    var s := states[n];
    assert TaskHolds(cfg, s.table, s.tasks[c]);
    var i, m := SomeoneInserted(cfg, states, actions, n, id);
    BindingIdentifiesTheCall(s.tasks[m].call.context, s.tasks[c].call.context);
  }

  /** It is also the operation of everyone who was told to wait for the approval. */
  lemma ConsumedCallIsEveryWaitersCall(
    cfg: Config, states: seq<State>, actions: seq<Action>, n: nat, c: nat, id: Text, e: nat)
    requires IsRun(cfg, states, actions) && n < |states| && ConsumedOk(states[n], c, id)
    requires LookupsAreExact(cfg, states[n]) && HandsOut(states[n], e, id)
    ensures SameOperation(states[n].tasks[e].call.context, states[n].tasks[c].call.context)
  {
    ConsumptionIsBound(cfg, states, actions, n, c, id);
    RunKeepsInv(cfg, states, actions, n);
    assert TaskHolds(cfg, states[n].table, states[n].tasks[c]);
    HandedOutRow(cfg, states, actions, n, e, id);
    BindingIdentifiesTheCall(states[n].tasks[e].call.context, states[n].tasks[c].call.context);
  }

  // ---------------------------------------------------------------- calls end

  /** How many steps a call can still take. */
  function Rank(p: Phase): nat {
    match p
    case Finished(_) => 0
    case Asked(f) => 3 * FrameRank(f) + 2
    case Answered(f, reply) => 3 * FrameRank(f) + (if reply == Threw then 0 else 1)
  }

  function FrameRank(f: Frame): nat {
    match f
    case Finding => 3
    case Inserting(_) => 2
    case Refinding(_) => 1
    case Reading => 4
    case Expiring(_) => 3
    case Rereading(_) => 1
    case Updating(_) => 2
    case Rechecking(_) => 1
    case Sweeping => 1
  }

  /** Every step of a call brings it closer to its end, so a call takes at most four
      repository operations and fourteen steps, whatever the other calls do. */
  lemma CallsComeToAnEnd(cfg: Config, s: State, a: Action)
    requires Enabled(cfg, s, a)
    ensures !a.Start? ==> Rank(Apply(cfg, s, a).tasks[a.c].phase) < Rank(s.tasks[a.c].phase)
    ensures a.Start? ==> Rank(Apply(cfg, s, a).tasks[a.c].phase) <= 14
    ensures forall d | d in s.tasks && d != a.c :: Apply(cfg, s, a).tasks[d] == s.tasks[d]
  {
    if a.Resume? {
      var t := s.tasks[a.c];
      ResumeLowersRank(cfg, t.call, t.now, t.phase.frame, t.phase.reply, a.at, a.id);
    }
  }

  lemma ResumeLowersRank(cfg: Config, call: Call, now: int, f: Frame, reply: Reply, at: int, id: Text)
    requires Suits(call, f)
    ensures Rank(Resumed(cfg, call, now, f, reply, at, id)) < Rank(Answered(f, reply))
  {}

  lemma {:induction false} SomeListing(ids: set<Text>) returns (pick: seq<Text>)
    ensures Lists(pick, ids)
  {
    if ids == {} {
      pick := [];
    } else {
      var id :| id in ids;
      var rest := SomeListing(ids - {id});
      ListsItsElements(rest, ids - {id});
      pick := [id] + rest;
      assert forall x :: x in pick <==> x == id || x in rest;
    }
  }

  /** A repository can always execute an operation: there is a row to return, or an order in
      which to list. */
  lemma SomePickIsLegal(t: Table, backend: Backend, q: Query) returns (pick: seq<Text>)
    ensures Legal(t, backend, q, pick)
  {
    match q
    case FindPending(binding) =>
      if Candidates(t, backend, binding) == {} {
        pick := [];
      } else {
        var id :| id in Candidates(t, backend, binding);
        pick := [id];
      }
    case ExpireStale(now) => pick := SomeListing(Stale(t, now));
    case _ => pick := [];
  }

  /** A call that has not ended can go on without any fault: its repository operation can run,
      or its code can take the answer. It never waits for another call. */
  lemma CallsAreNeverStuck(cfg: Config, s: State, c: nat)
    requires Inv(cfg, s) && c in s.tasks && !s.tasks[c].phase.Finished?
    ensures exists a: Action :: a.c == c && (a.Ask? || a.Resume?) && Enabled(cfg, s, a)
  {
    var t := s.tasks[c];
    assert TaskHolds(cfg, s.table, t);
    if t.phase.Asked? {
      var pick := SomePickIsLegal(s.table, cfg.backend, QueryOf(t.call, t.now, t.phase.frame));
      assert Enabled(cfg, s, Ask(c, pick)) && Ask(c, pick).c == c;
    } else {
      assert Enabled(cfg, s, Resume(c, 0, [])) && Resume(c, 0, []).c == c;
    }
  }

  // ---------------------------------------------------------------- time to live

  /** With a default within bounds, every approval lives longer than nothing and at most the
      maximum; a positive time within the maximum is granted as asked. */
  lemma LifetimeIsBounded(cfg: Config, ttl: Ttl)
    ensures ttl.Finite? && 0 < ttl.millis <= cfg.maxTtl ==> ClampTtl(cfg, ttl) == ttl.millis
    ensures ttl.Finite? && ttl.millis > cfg.maxTtl > 0 ==> ClampTtl(cfg, ttl) == cfg.maxTtl
    ensures ttl.Unspecified? && 0 < cfg.defaultTtl <= cfg.maxTtl ==> ClampTtl(cfg, ttl) == cfg.defaultTtl
    ensures ttl.Unspecified? && cfg.defaultTtl > cfg.maxTtl > 0 ==> ClampTtl(cfg, ttl) == cfg.maxTtl
    ensures 0 < cfg.defaultTtl <= cfg.maxTtl ==> 0 < ClampTtl(cfg, ttl) <= cfg.maxTtl
    ensures (forall t :: ClampTtl(cfg, t) <= cfg.maxTtl) <==> cfg.defaultTtl <= cfg.maxTtl
  {
    assert ClampTtl(cfg, NotFinite) == cfg.defaultTtl;
  }
}
