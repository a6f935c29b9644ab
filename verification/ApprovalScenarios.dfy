/** When a decide or consume call succeeds if nothing interrupts it. */
module ApprovalScenarios {
  import opened Texts
  import opened Requests
  import opened Bindings
  import opened ApprovalRecords
  import opened ApprovalProtocol
  import opened ApprovalSafety
  import opened ApprovalTheorems

  ghost predicate Reachable(cfg: Config, s: State) {
    exists states, actions :: IsRun(cfg, states, actions) && states[|states| - 1] == s
  }

  lemma InitialIsReachable(cfg: Config)
    ensures Reachable(cfg, INITIAL)
  {
    assert IsRun(cfg, [INITIAL], []);
  }

  lemma ReachableHolds(cfg: Config, s: State)
    requires Reachable(cfg, s)
    ensures Inv(cfg, s)
  {
    var states, actions :| IsRun(cfg, states, actions) && states[|states| - 1] == s;
    RunKeepsInv(cfg, states, actions, |states| - 1);
  }

  lemma StepIsReachable(cfg: Config, s: State, a: Action)
    requires Reachable(cfg, s) && Enabled(cfg, s, a)
    ensures Reachable(cfg, Apply(cfg, s, a))
  {
    var states, actions :| IsRun(cfg, states, actions) && states[|states| - 1] == s;
    var more, steps := states + [Apply(cfg, s, a)], actions + [a];
    forall i | 0 <= i < |steps| ensures StepAt(cfg, more, steps, i) {
      if i < |actions| {
        assert StepAt(cfg, states, actions, i);
      }
    }
    assert IsRun(cfg, more, steps);
  }

  ghost predicate CanRound(cfg: Config, s: State, c: nat, pick: seq<Text>) {
    Enabled(cfg, s, Ask(c, pick))
  }

  /** A repository operation of one call, followed at once by the code that awaited it. */
  ghost function Round(cfg: Config, s: State, c: nat, pick: seq<Text>, at: int, id: Text): State
    requires CanRound(cfg, s, c, pick)
  {
    Apply(cfg, Apply(cfg, s, Ask(c, pick)), Resume(c, at, id))
  }

  /** What the two steps change, besides the log. */
  lemma RoundChanges(cfg: Config, s: State, c: nat, pick: seq<Text>, at: int, id: Text)
    requires CanRound(cfg, s, c, pick)
    ensures var t := s.tasks[c];
            var (u, reply) := Exec(s.table, cfg.backend, QueryOf(t.call, t.now, t.phase.frame), pick);
            var v := Round(cfg, s, c, pick, at, id);
            && v.table == u && v.lost == s.lost
            && v.tasks == s.tasks[c := t.(phase := Resumed(cfg, t.call, t.now, t.phase.frame, reply, at, id))]
  {}

  /** A decide or consume call has begun and made its read. */
  lemma FirstRound(cfg: Config, s: State, c: nat, call: Call, now: int) returns (u: State)
    requires cfg.available && c !in s.tasks && ValidCall(call) && (call.DecideCall? || call.ConsumeCall?)
    ensures var s1 := Apply(cfg, s, Start(c, call, now));
            CanRound(cfg, s1, c, []) && u == Round(cfg, s1, c, [], 0, [])
    ensures u.table == s.table && u.lost == s.lost
    ensures u.tasks == s.tasks[c :=
              Task(call, now, Resumed(cfg, call, now, Reading, Row(Find(s.table, call.id)), 0, []))]
  {
    var s1 := Apply(cfg, s, Start(c, call, now));
    RoundChanges(cfg, s1, c, [], 0, []);
    u := Round(cfg, s1, c, [], 0, []);
  }

  // ---------------------------------------------------------------- uncontested calls

  /** The approval can be executed now by a request in this context. */
  ghost predicate Executable(t: Table, id: Text, context: SecurityContext, now: int) {
    Consumable(t, id, now) && SameBinding(t[id].draft.binding, BindingOf(context))
  }

  /** The read of a consume call leads to the update exactly when the approval is executable. */
  lemma ReadLeadsToUpdate(cfg: Config, t: Table, call: Call, now: int)
    requires TableSound(t) && call.ConsumeCall?
    ensures var p := Resumed(cfg, call, now, Reading, Row(Find(t, call.id)), 0, []);
            && (Executable(t, call.id, call.context, now) <==> p.Asked? && p.frame.Updating?)
            && !(p.Finished? && p.result.Consumed?)
  {
    if call.id in t { assert Sound(t[call.id]); }
  }

  lemma ConsumeReads(cfg: Config, s: State, c: nat, call: Call, now: int) returns (u: State)
    requires Inv(cfg, s) && cfg.available && c !in s.tasks && ValidCall(call) && call.ConsumeCall?
    ensures var s1 := Apply(cfg, s, Start(c, call, now));
            CanRound(cfg, s1, c, []) && u == Round(cfg, s1, c, [], 0, [])
    ensures u.table == s.table && c in u.tasks && u.tasks[c].call == call && u.tasks[c].now == now
    ensures !ConsumedOk(u, c, call.id)
    ensures Executable(s.table, call.id, call.context, now)
       <==> u.tasks[c].phase.Asked? && u.tasks[c].phase.frame.Updating?
  {
    u := FirstRound(cfg, s, c, call, now);
    ReadLeadsToUpdate(cfg, s.table, call, now);
  }

  lemma ConsumeUpdates(cfg: Config, u: State, c: nat)
    requires c in u.tasks && u.tasks[c].call.ConsumeCall?
    requires u.tasks[c].phase.Asked? && u.tasks[c].phase.frame.Updating?
    requires Consumable(u.table, u.tasks[c].call.id, u.tasks[c].now)
    ensures CanRound(cfg, u, c, [])
    ensures var t := u.tasks[c];
            var r := ConsumedRecord(u.table[t.call.id], t.now, t.call.agent);
            && Round(cfg, u, c, [], 0, []).tasks[c].phase == Finished(Consumed(r))
            && Round(cfg, u, c, [], 0, []).table == u.table[t.call.id := r]
  {
    RoundChanges(cfg, u, c, [], 0, []);
  }

  /** A consume call that nothing interrupts succeeds exactly when the approval is approved,
      unconsumed, unexpired and bound to this very request. */
  lemma UncontestedConsume(cfg: Config, s: State, c: nat, call: Call, now: int)
    requires Inv(cfg, s) && cfg.available && c !in s.tasks && ValidCall(call) && call.ConsumeCall?
    ensures var s1 := Apply(cfg, s, Start(c, call, now));
            CanRound(cfg, s1, c, []) &&
            var s2 := Round(cfg, s1, c, [], 0, []);
            if Executable(s.table, call.id, call.context, now) then
              CanRound(cfg, s2, c, []) && ConsumedOk(Round(cfg, s2, c, [], 0, []), c, call.id)
            else
              && !ConsumedOk(s2, c, call.id)
              && !(s2.tasks[c].phase.Asked? && s2.tasks[c].phase.frame.Updating?)
  {
    var u := ConsumeReads(cfg, s, c, call, now);
    if Executable(s.table, call.id, call.context, now) {
      ConsumeUpdates(cfg, u, c);
      RoundChanges(cfg, u, c, [], 0, []);
    }
  }

  lemma DecideReads(cfg: Config, s: State, c: nat, call: Call, now: int) returns (u: State)
    requires cfg.available && c !in s.tasks && ValidCall(call) && call.DecideCall?
    ensures var s1 := Apply(cfg, s, Start(c, call, now));
            CanRound(cfg, s1, c, []) && u == Round(cfg, s1, c, [], 0, [])
    ensures u.table == s.table && c in u.tasks && u.tasks[c].call == call && u.tasks[c].now == now
    ensures Decidable(s.table, call.id, now)
       <==> u.tasks[c].phase.Asked? && u.tasks[c].phase.frame.Updating?
  {
    u := FirstRound(cfg, s, c, call, now);
  }

  lemma DecideUpdates(cfg: Config, u: State, c: nat)
    requires c in u.tasks && u.tasks[c].call.DecideCall?
    requires u.tasks[c].phase.Asked? && u.tasks[c].phase.frame.Updating?
    requires Decidable(u.table, u.tasks[c].call.id, u.tasks[c].now)
    ensures CanRound(cfg, u, c, [])
    ensures var t := u.tasks[c];
            var r := DecidedRecord(u.table[t.call.id], t.call.status, t.call.approver, t.now, t.call.reason);
            && Round(cfg, u, c, [], 0, []).tasks[c].phase == Finished(Decided(r))
            && Round(cfg, u, c, [], 0, []).table == u.table[t.call.id := r]
  {
    RoundChanges(cfg, u, c, [], 0, []);
  }

  /** A decide call that nothing interrupts takes effect exactly when the approval is pending
      and not yet due. */
  lemma UncontestedDecide(cfg: Config, s: State, c: nat, call: Call, now: int)
    requires Inv(cfg, s) && cfg.available && c !in s.tasks && ValidCall(call) && call.DecideCall?
    ensures var s1 := Apply(cfg, s, Start(c, call, now));
            CanRound(cfg, s1, c, []) &&
            var s2 := Round(cfg, s1, c, [], 0, []);
            if Decidable(s.table, call.id, now) then
              && CanRound(cfg, s2, c, [])
              && Round(cfg, s2, c, [], 0, []).tasks[c].phase == Finished(Decided(
                   DecidedRecord(s.table[call.id], call.status, call.approver, now, call.reason)))
              && Round(cfg, s2, c, [], 0, []).table == s.table[call.id :=
                   DecidedRecord(s.table[call.id], call.status, call.approver, now, call.reason)]
            else !(s2.tasks[c].phase.Asked? && s2.tasks[c].phase.frame.Updating?)
  {
    var u := DecideReads(cfg, s, c, call, now);
    if Decidable(s.table, call.id, now) {
      DecideUpdates(cfg, u, c);
    }
  }
}
