/** Runs without any fault that show what the service does not promise. */
module ApprovalLimits {
  import opened Wrappers
  import opened Texts
  import opened Bindings
  import opened ApprovalRecords
  import opened ApprovalProtocol
  import opened ApprovalSafety
  import opened ApprovalTheorems
  import opened ApprovalScenarios

  /** No operation fails, and no answer is lost. */
  ghost predicate FaultFree(actions: seq<Action>) {
    forall i | 0 <= i < |actions| :: !actions[i].Fail? && !actions[i].Lose?
  }

  ghost predicate IsPath(cfg: Config, s: State, u: State, states: seq<State>, actions: seq<Action>) {
    && |states| == |actions| + 1 && states[0] == s && states[|actions|] == u && FaultFree(actions)
    && forall i | 0 <= i < |actions| :: StepAt(cfg, states, actions, i)
  }

  /** Steps without any fault lead from one state to the other. */
  ghost predicate Leads(cfg: Config, s: State, u: State) {
    exists states, actions :: IsPath(cfg, s, u, states, actions)
  }

  lemma LeadsToItself(cfg: Config, s: State)
    ensures Leads(cfg, s, s)
  {
    assert IsPath(cfg, s, s, [s], []);
  }

  lemma LeadsOn(cfg: Config, s: State, u: State, a: Action)
    requires Leads(cfg, s, u) && Enabled(cfg, u, a) && !a.Fail? && !a.Lose?
    ensures Leads(cfg, s, Apply(cfg, u, a))
  {
    var states, actions :| IsPath(cfg, s, u, states, actions);
    var more, steps := states + [Apply(cfg, u, a)], actions + [a];
    forall i | 0 <= i < |steps| ensures StepAt(cfg, more, steps, i) {
      if i < |actions| {
        assert StepAt(cfg, states, actions, i);
      }
    }
    assert IsPath(cfg, s, Apply(cfg, u, a), more, steps);
  }

  lemma Begin(cfg: Config, s: State, u: State, c: nat, call: Call, now: int) returns (v: State)
    requires Leads(cfg, s, u) && cfg.available && c !in u.tasks && ValidCall(call)
    ensures Leads(cfg, s, v) && v.table == u.table
    ensures v.tasks == u.tasks[c := Task(call, now, Asked(FirstFrame(call)))]
  {
    LeadsOn(cfg, s, u, Start(c, call, now));
    v := Apply(cfg, u, Start(c, call, now));
  }

  /** One repository operation and the code that awaited it. */
  lemma Advance(cfg: Config, s: State, u: State, c: nat, pick: seq<Text>, at: int, id: Text) returns (v: State)
    requires Leads(cfg, s, u) && CanRound(cfg, u, c, pick)
    ensures Leads(cfg, s, v)
    ensures var t := u.tasks[c];
            var (table, reply) := Exec(u.table, cfg.backend, QueryOf(t.call, t.now, t.phase.frame), pick);
            && v.table == table
            && v.tasks == u.tasks[c := t.(phase := Resumed(cfg, t.call, t.now, t.phase.frame, reply, at, id))]
  {
    LeadsOn(cfg, s, u, Ask(c, pick));
    LeadsOn(cfg, s, Apply(cfg, u, Ask(c, pick)), Resume(c, at, id));
    RoundChanges(cfg, u, c, pick, at, id);
    v := Round(cfg, u, c, pick, at, id);
  }

  /** A state with a single pending approval, created at time 0. */
  lemma OnePending(cfg: Config, call: Call, id: Text) returns (s: State)
    requires cfg.available && call.CreateCall? && ValidCall(call)
    ensures Leads(cfg, INITIAL, s) && s.tasks.Keys == {0}
    ensures s.table == map[id := PendingRecord(Draft(cfg, call, 0, id))]
  {
    LeadsToItself(cfg, INITIAL);
    s := Begin(cfg, INITIAL, INITIAL, 0, call, 0);
    assert Candidates(s.table, cfg.backend, BindingOf(call.context)) == {};
    s := Advance(cfg, INITIAL, s, 0, [], 0, id);
    s := Advance(cfg, INITIAL, s, 0, [], 0, id);
  }

  /** Runs a decide call from its beginning to its success. */
  lemma DecideNow(cfg: Config, s: State, u: State, c: nat, call: Call, now: int) returns (v: State)
    requires Leads(cfg, s, u) && cfg.available && c !in u.tasks && ValidCall(call) && call.DecideCall?
    requires Decidable(u.table, call.id, now)
    ensures Leads(cfg, s, v) && v.tasks.Keys == u.tasks.Keys + {c}
    ensures forall d | d in u.tasks :: v.tasks[d] == u.tasks[d]
    ensures v.table == u.table[call.id :=
              DecidedRecord(u.table[call.id], call.status, call.approver, now, call.reason)]
  {
    v := Begin(cfg, s, u, c, call, now);
    v := Advance(cfg, s, v, c, [], 0, []);
    v := Advance(cfg, s, v, c, [], 0, []);
  }

  lemma ConsumeNow(cfg: Config, s: State, u: State, c: nat, call: Call, now: int) returns (v: State)
    requires Leads(cfg, s, u) && cfg.available && c !in u.tasks && ValidCall(call) && call.ConsumeCall?
    requires Executable(u.table, call.id, call.context, now)
    ensures Leads(cfg, s, v) && v.table == u.table[call.id := ConsumedRecord(u.table[call.id], now, call.agent)]
  {
    v := Begin(cfg, s, u, c, call, now);
    v := Advance(cfg, s, v, c, [], 0, []);
    v := Advance(cfg, s, v, c, [], 0, []);
  }

  // ---------------------------------------------------------------- expired, and approved

  /** The call has read the record while it was pending and overdue. */
  ghost predicate SawItPendingAndDue(s: State, c: nat) {
    && c in s.tasks && s.tasks[c].phase.Asked? && s.tasks[c].phase.frame.Expiring?
    && s.tasks[c].phase.frame.current.status == Pending
    && s.tasks[c].phase.frame.current.DueBy(s.tasks[c].now)
  }

  /** A consume call at the moment of expiry has read the record and is about to expire it. */
  lemma FindsItDue(cfg: Config, s: State, create: Call, id: Text) returns (u: State)
    requires cfg.available && create.CreateCall? && ValidCall(create) && Leads(cfg, INITIAL, s)
    requires s.tasks.Keys == {0} && s.table == map[id := PendingRecord(Draft(cfg, create, 0, id))]
    ensures Leads(cfg, INITIAL, u) && u.tasks.Keys == {0, 1} && u.table == s.table
    ensures u.tasks[1] == Task(ConsumeCall(id, create.context, create.context.agentId), ClampTtl(cfg, create.ttl),
                               Asked(Expiring(PendingRecord(Draft(cfg, create, 0, id)))))
  {
    u := Begin(cfg, INITIAL, s, 1, ConsumeCall(id, create.context, create.context.agentId),
               ClampTtl(cfg, create.ttl));
    u := Advance(cfg, INITIAL, u, 1, [], 0, []);
  }

  /** A call that has read a pending, overdue record may answer `expired` with that record
      APPROVED: a decider with an earlier clock reading was faster than its expiry. */
  lemma ExpiredMayShowApproval(cfg: Config, create: Call, id: Text, approver: Text)
    requires cfg.available && create.CreateCall? && ValidCall(create) && ClampTtl(cfg, create.ttl) > 0
    ensures exists s: State, u: State, c: nat ::
              && Leads(cfg, INITIAL, s) && SawItPendingAndDue(s, c) && Leads(cfg, s, u)
              && c in u.tasks && u.tasks[c].phase.Finished? && u.tasks[c].phase.result.IsExpired?
              && u.tasks[c].phase.result.record.status == Approved
  {
    var s := OnePending(cfg, create, id);
    s := FindsItDue(cfg, s, create, id);
    LeadsToItself(cfg, s);
    var u := DecideNow(cfg, s, s, 2, DecideCall(id, Approved, approver, None), 0);
    u := Advance(cfg, s, u, 1, [], 0, []);
    u := Advance(cfg, s, u, 1, [], 0, []);
    assert SawItPendingAndDue(s, 1) && u.tasks[1].phase.result.record.status == Approved;
  }

  // ---------------------------------------------------------------- times out of order

  /** An approval may carry a consumption time before its decision time. */
  lemma ConsumptionMayPredateDecision(cfg: Config, create: Call, id: Text, approver: Text)
    requires cfg.available && create.CreateCall? && ValidCall(create) && ClampTtl(cfg, create.ttl) > 2
    ensures exists s: State :: Leads(cfg, INITIAL, s) && id in s.table
              && s.table[id].consumedAt.Some? && s.table[id].decidedAt.Some?
              && s.table[id].consumedAt.value < s.table[id].decidedAt.value
  {
    var s := OnePending(cfg, create, id);
    s := DecideNow(cfg, INITIAL, s, 1, DecideCall(id, Approved, approver, None), 2);
    s := ConsumeNow(cfg, INITIAL, s, 2, ConsumeCall(id, create.context, create.context.agentId), 1);
    assert s.table[id].consumedAt == Some(1) && s.table[id].decidedAt == Some(2);
  }

  // ---------------------------------------------------------------- racing creators

  /** Two create calls for one operation that both looked before either inserted. */
  lemma BothAboutToInsert(cfg: Config, create: Call, a: Text, b: Text) returns (s: State)
    requires cfg.available && create.CreateCall? && ValidCall(create)
    ensures Leads(cfg, INITIAL, s) && s.table == map[] && s.tasks.Keys == {0, 1}
    ensures s.tasks[0] == Task(create, 0, Asked(Inserting(Draft(cfg, create, 0, a))))
    ensures s.tasks[1] == Task(create, 0, Asked(Inserting(Draft(cfg, create, 0, b))))
  {
    LeadsToItself(cfg, INITIAL);
    s := Begin(cfg, INITIAL, INITIAL, 0, create, 0);
    s := Begin(cfg, INITIAL, s, 1, create, 0);
    assert Candidates(s.table, cfg.backend, BindingOf(create.context)) == {};
    s := Advance(cfg, INITIAL, s, 0, [], 0, a);
    s := Advance(cfg, INITIAL, s, 1, [], 0, b);
  }

  /** Without the unique index, racing creators leave two pending records for one binding. */
  lemma MemoryMayKeepTwoPending(cfg: Config, create: Call, a: Text, b: Text)
    requires cfg.available && cfg.backend == Memory && create.CreateCall? && ValidCall(create) && a != b
    ensures exists s: State :: Leads(cfg, INITIAL, s) && PendingPair(s.table, a, b)
  {
    var s := BothAboutToInsert(cfg, create, a, b);
    s := Advance(cfg, INITIAL, s, 0, [], 0, []);
    s := Advance(cfg, INITIAL, s, 1, [], 0, []);
    assert PendingPair(s.table, a, b);
  }

  /** No run ever leaves two pending records of one binding exactly if there is the index. */
  lemma OnePendingNeedsTheIndex(cfg: Config, create: Call, a: Text, b: Text)
    requires cfg.available && create.CreateCall? && ValidCall(create) && a != b
    ensures (forall s | Reachable(cfg, s) :: !TwoPending(s.table)) <==> cfg.backend == Postgres
  {
    if cfg.backend == Memory {
      MemoryMayKeepTwoPending(cfg, create, a, b);
      var s: State :| Leads(cfg, INITIAL, s) && PendingPair(s.table, a, b);
      var states, actions :| IsPath(cfg, INITIAL, s, states, actions);
      assert IsRun(cfg, states, actions);
      assert Reachable(cfg, s) && TwoPending(s.table);
    } else {
      forall s | Reachable(cfg, s) ensures !TwoPending(s.table) {
        ReachableHolds(cfg, s);
      }
    }
  }

  /** The second of them has met the first one's record. */
  lemma OneIsBlocked(cfg: Config, create: Call, a: Text, b: Text) returns (s: State)
    requires cfg.available && cfg.backend == Postgres && create.CreateCall? && ValidCall(create)
    ensures Leads(cfg, INITIAL, s) && s.tasks.Keys == {0, 1}
    ensures s.table == map[a := PendingRecord(Draft(cfg, create, 0, a))]
    ensures s.tasks[1] == Task(create, 0, Asked(Refinding(Draft(cfg, create, 0, b))))
  {
    s := BothAboutToInsert(cfg, create, a, b);
    s := Advance(cfg, INITIAL, s, 0, [], 0, []);
    assert !Insertable(s.table, Postgres, Draft(cfg, create, 0, b)) by {
      assert SameIndexKey(s.table[a].draft.binding, BindingOf(create.context));
    }
    s := Advance(cfg, INITIAL, s, 1, [], 0, []);
  }

  /** With the unique index, a create call may throw although no operation was at fault: the
      record that blocked its insertion is decided before it looks for it. */
  lemma CreateMayFailWithoutFault(cfg: Config, create: Call, a: Text, b: Text, approver: Text)
    requires cfg.available && cfg.backend == Postgres && create.CreateCall? && ValidCall(create)
    requires ClampTtl(cfg, create.ttl) > 0
    ensures exists states: seq<State>, actions: seq<Action> ::
              && IsRun(cfg, states, actions) && FaultFree(actions)
              && 1 in states[|actions|].tasks && states[|actions|].tasks[1].phase == Finished(Failed)
  {
    var s := OneIsBlocked(cfg, create, a, b);
    s := DecideNow(cfg, INITIAL, s, 2, DecideCall(a, Denied, approver, None), 0);
    assert Candidates(s.table, Postgres, BindingOf(create.context)) == {};
    s := Advance(cfg, INITIAL, s, 1, [], 0, []);
    var states, actions :| IsPath(cfg, INITIAL, s, states, actions);
    assert IsRun(cfg, states, actions);
  }
}
