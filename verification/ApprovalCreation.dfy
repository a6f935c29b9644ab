/** When a create call fails, over every run without a fault. */
module ApprovalCreation {
  import opened Wrappers
  import opened Texts
  import opened Bindings
  import opened ApprovalRecords
  import opened ApprovalProtocol
  import opened ApprovalSafety
  import opened ApprovalTheorems
  import opened ApprovalLimits

  /** The identifier is taken or, where there is the unique index, a pending record has the
      draft's index key. */
  ghost predicate Blocks(t: Table, backend: Backend, draft: NewApproval) {
    || draft.id in t
    || (backend == Postgres
        && exists id :: id in t && t[id].status == Pending && SameIndexKey(t[id].draft.binding, draft.binding))
  }

  /** No pending record has the draft's key. */
  ghost predicate NoneToReuse(t: Table, backend: Backend, draft: NewApproval) {
    forall id | id in t && t[id].status == Pending :: !SameKey(backend, t[id].draft.binding, draft.binding)
  }

  /** At step i the insertion of the create call c is executed and refused. */
  ghost predicate InsertRefused(cfg: Config, states: seq<State>, actions: seq<Action>, i: int, c: nat)
    requires |states| == |actions| + 1
  {
    && 0 <= i < |actions| && actions[i].Ask? && actions[i].c == c && c in states[i].tasks
    && var p := states[i].tasks[c].phase;
       p.Asked? && p.frame.Inserting? && Blocks(states[i].table, cfg.backend, p.frame.draft)
  }

  /** At step j the second lookup of the create call c is executed and finds nothing. */
  ghost predicate LookedInVain(cfg: Config, states: seq<State>, actions: seq<Action>, j: int, c: nat)
    requires |states| == |actions| + 1
  {
    && 0 <= j < |actions| && actions[j].Ask? && actions[j].c == c && c in states[j].tasks
    && var p := states[j].tasks[c].phase;
       p.Asked? && p.frame.Refinding? && NoneToReuse(states[j].table, cfg.backend, p.frame.draft)
  }

  /** The call has had its insertion refused. */
  ghost predicate WasRefused(p: Phase) {
    match p
    case Asked(Refinding(_)) => true
    case Answered(Refinding(_), _) => true
    case Answered(Inserting(_), Threw) => true
    case _ => false
  }

  /** The call has found nothing to hand out instead. */
  ghost predicate IsFailing(p: Phase) {
    match p
    case Answered(Refinding(_), Row(None)) => true
    case Finished(Failed) => true
    case _ => false
  }

  // ---------------------------------------------------------------- one step

  /** What a step without fault makes of the phase of a create call. */
  ghost predicate Moves(cfg: Config, t: Table, call: Call, now: int, p: Phase, q: Phase) {
    match p
    case Asked(f) =>
      Suits(call, f)
      && exists pick :: Legal(t, cfg.backend, QueryOf(call, now, f), pick)
           && q == Answered(f, Exec(t, cfg.backend, QueryOf(call, now, f), pick).1)
    case Answered(f, reply) => Suits(call, f) && exists at, id :: q == Resumed(cfg, call, now, f, reply, at, id)
    case Finished(_) => false
  }

  lemma TaskMoves(cfg: Config, s: State, a: Action, c: nat)
    requires Enabled(cfg, s, a) && !a.Fail? && !a.Lose? && c in s.tasks
    ensures var t, u := s.tasks[c], Apply(cfg, s, a).tasks;
            && c in u && u[c].call == t.call && u[c].now == t.now
            && (u[c] == t || (a.c == c && Moves(cfg, s.table, t.call, t.now, t.phase, u[c].phase)))
  {
    TasksOfStep(cfg, s, a);
  }

  /** A call becomes refused exactly when its insertion meets what blocks it. */
  lemma BecomesRefused(cfg: Config, t: Table, call: Call, now: int, p: Phase, q: Phase)
    requires call.CreateCall? && Moves(cfg, t, call, now, p, q) && !WasRefused(p) && WasRefused(q)
    ensures p.Asked? && p.frame.Inserting? && Blocks(t, cfg.backend, p.frame.draft)
  {}

  lemma StaysRefusedUntilFailing(cfg: Config, t: Table, call: Call, now: int, p: Phase, q: Phase)
    requires call.CreateCall? && Moves(cfg, t, call, now, p, q) && !IsFailing(p) && IsFailing(q)
    requires p.Answered? && p.reply == Threw ==> p.frame.Inserting?
    requires p.Answered? && p.frame.Finding? ==> p.reply.Row?
    requires p.Answered? && p.frame.Inserting? ==> p.reply in {Done, Threw}
    requires p.Answered? && p.frame.Refinding? ==> p.reply.Row?
    ensures WasRefused(p) && p.Asked? && p.frame.Refinding? && NoneToReuse(t, cfg.backend, p.frame.draft)
  {
    if p.Asked? {
      var pick :| Legal(t, cfg.backend, QueryOf(call, now, p.frame), pick)
                  && q == Answered(p.frame, Exec(t, cfg.backend, QueryOf(call, now, p.frame), pick).1);
      assert Candidates(t, cfg.backend, p.frame.draft.binding) == {};
      forall id | id in t && t[id].status == Pending
        ensures !SameKey(cfg.backend, t[id].draft.binding, p.frame.draft.binding)
      {
        assert id !in Candidates(t, cfg.backend, p.frame.draft.binding);
      }
    }
  }

  lemma StaysFailing(cfg: Config, t: Table, call: Call, now: int, p: Phase, q: Phase)
    requires call.CreateCall? && Moves(cfg, t, call, now, p, q) && IsFailing(p)
    ensures IsFailing(q)
  {}

  // ---------------------------------------------------------------- over runs

  ghost predicate IsCreate(s: State, c: nat) {
    c in s.tasks && s.tasks[c].call.CreateCall?
  }

  lemma {:induction false} RefusedTrace(cfg: Config, states: seq<State>, actions: seq<Action>, n: nat, c: nat)
    returns (i: nat)
    requires IsRun(cfg, states, actions) && FaultFree(actions) && n < |states|
    requires IsCreate(states[n], c) && WasRefused(states[n].tasks[c].phase)
    ensures i < n && InsertRefused(cfg, states, actions, i, c)
  {
    assert n > 0;
    var s, a := states[n - 1], actions[n - 1];
    assert StepAt(cfg, states, actions, n - 1);
    assert c in s.tasks by {
      if c !in s.tasks { RefusedIsNotNew(cfg, s, a, c); }
    }
    TaskMoves(cfg, s, a, c);
    if WasRefused(s.tasks[c].phase) {
      i := RefusedTrace(cfg, states, actions, n - 1, c);
    } else {
      BecomesRefused(cfg, s.table, s.tasks[c].call, s.tasks[c].now, s.tasks[c].phase, states[n].tasks[c].phase);
      i := n - 1;
    }
  }

  lemma RefusedIsNotNew(cfg: Config, s: State, a: Action, c: nat)
    requires Enabled(cfg, s, a) && c !in s.tasks && c in Apply(cfg, s, a).tasks
    ensures !WasRefused(Apply(cfg, s, a).tasks[c].phase)
    ensures Apply(cfg, s, a).tasks[c].call.CreateCall? ==> !IsFailing(Apply(cfg, s, a).tasks[c].phase)
  {
    TasksOfStep(cfg, s, a);
  }

  /** What the answers to a create call look like when nothing fails. */
  lemma AnswersFit(cfg: Config, states: seq<State>, actions: seq<Action>, n: nat, c: nat)
    requires IsRun(cfg, states, actions) && FaultFree(actions) && n < |states| && IsCreate(states[n], c)
    ensures var p := states[n].tasks[c].phase;
            p.Answered? ==>
              && (p.reply == Threw ==> p.frame.Inserting?)
              && (p.frame.Finding? ==> p.reply.Row?)
              && (p.frame.Inserting? ==> p.reply in {Done, Threw})
              && (p.frame.Refinding? ==> p.reply.Row?)
  {
    OnlyFaultsFail(cfg, states, actions, n);
    RunKeepsInv(cfg, states, actions, n);
    assert FailsOnlyAsCreate(states[n].tasks[c]) && TaskHolds(cfg, states[n].table, states[n].tasks[c]);
  }

  lemma {:induction false} FailingTrace(cfg: Config, states: seq<State>, actions: seq<Action>, n: nat, c: nat)
    returns (i: nat, j: nat)
    requires IsRun(cfg, states, actions) && FaultFree(actions) && n < |states|
    requires IsCreate(states[n], c) && IsFailing(states[n].tasks[c].phase)
    ensures i < j < n && InsertRefused(cfg, states, actions, i, c) && LookedInVain(cfg, states, actions, j, c)
  {
    assert n > 0;
    var s, a := states[n - 1], actions[n - 1];
    assert StepAt(cfg, states, actions, n - 1);
    assert c in s.tasks by {
      if c !in s.tasks { RefusedIsNotNew(cfg, s, a, c); }
    }
    TaskMoves(cfg, s, a, c);
    if IsFailing(s.tasks[c].phase) {
      i, j := FailingTrace(cfg, states, actions, n - 1, c);
    } else {
      AnswersFit(cfg, states, actions, n - 1, c);
      StaysRefusedUntilFailing(
        cfg, s.table, s.tasks[c].call, s.tasks[c].now, s.tasks[c].phase, states[n].tasks[c].phase);
      i := RefusedTrace(cfg, states, actions, n - 1, c);
      j := n - 1;
    }
  }

  /** A lookup in vain is answered with no row. */
  lemma VainLookupIsFailing(cfg: Config, s: State, a: Action, c: nat)
    requires Enabled(cfg, s, a) && a.Ask? && a.c == c && IsCreate(s, c)
    requires s.tasks[c].phase.Asked? && s.tasks[c].phase.frame.Refinding?
    requires NoneToReuse(s.table, cfg.backend, s.tasks[c].phase.frame.draft)
    ensures IsCreate(Apply(cfg, s, a), c) && IsFailing(Apply(cfg, s, a).tasks[c].phase)
  {
    assert Candidates(s.table, cfg.backend, s.tasks[c].phase.frame.draft.binding) == {};
  }

  lemma {:induction false} VainLookupFails(
    cfg: Config, states: seq<State>, actions: seq<Action>, j: nat, n: nat, c: nat)
    requires IsRun(cfg, states, actions) && FaultFree(actions) && j < n < |states|
    requires IsCreate(states[n], c) && LookedInVain(cfg, states, actions, j, c)
    ensures IsFailing(states[n].tasks[c].phase)
    decreases n
  {
    var s, a := states[n - 1], actions[n - 1];
    assert StepAt(cfg, states, actions, n - 1);
    RunEvolves(cfg, states, actions, j, n - 1);
    RunEvolves(cfg, states, actions, j, n);
    if n == j + 1 {
      VainLookupIsFailing(cfg, s, a, c);
    } else {
      VainLookupFails(cfg, states, actions, j, n - 1, c);
      TaskMoves(cfg, s, a, c);
      if s.tasks[c] != states[n].tasks[c] {
        StaysFailing(cfg, s.table, s.tasks[c].call, s.tasks[c].now, s.tasks[c].phase, states[n].tasks[c].phase);
      }
    }
  }

  /** Without faults, a create call that has ended threw exactly when its insertion was refused,
      because the identifier was taken or the index key was, and its second lookup then found
      no pending record with its key. */
  lemma CreateFailsExactlyWhen(cfg: Config, states: seq<State>, actions: seq<Action>, n: nat, c: nat)
    requires IsRun(cfg, states, actions) && FaultFree(actions) && n < |states|
    requires IsCreate(states[n], c) && states[n].tasks[c].phase.Finished?
    ensures states[n].tasks[c].phase.result == Failed
       <==> exists i, j :: 0 <= i < j < n && InsertRefused(cfg, states, actions, i, c)
                           && LookedInVain(cfg, states, actions, j, c)
  {
    if states[n].tasks[c].phase.result == Failed {
      var i, j := FailingTrace(cfg, states, actions, n, c);
    }
    if i, j :| 0 <= i < j < n && InsertRefused(cfg, states, actions, i, c)
               && LookedInVain(cfg, states, actions, j, c) {
      VainLookupFails(cfg, states, actions, j, n, c);
    }
  }

  // ---------------------------------------------------------------- fresh identifiers

  /** At step k a create call makes its draft, with a new identifier. */
  ghost predicate DraftsAt(states: seq<State>, actions: seq<Action>, k: int)
    requires |states| == |actions| + 1
  {
    && 0 <= k < |actions| && actions[k].Resume? && actions[k].c in states[k].tasks
    && states[k].tasks[actions[k].c].phase == Answered(Finding, Row(None))
  }

  /** No identifier is handed to two drafts. */
  ghost predicate FreshIds(states: seq<State>, actions: seq<Action>)
    requires |states| == |actions| + 1
  {
    forall j, k | DraftsAt(states, actions, j) && DraftsAt(states, actions, k) && actions[j].id == actions[k].id ::
      j == k
  }

  lemma BeginsToInsert(cfg: Config, s: State, a: Action, c: nat)
    requires Enabled(cfg, s, a) && c in Apply(cfg, s, a).tasks
    requires Apply(cfg, s, a).tasks[c].phase.Asked? && Apply(cfg, s, a).tasks[c].phase.frame.Inserting?
    requires !(c in s.tasks && s.tasks[c].phase == Apply(cfg, s, a).tasks[c].phase)
    ensures a.Resume? && a.c == c && s.tasks[c].phase == Answered(Finding, Row(None))
    ensures Apply(cfg, s, a).tasks[c].phase.frame.draft.id == a.id
  {
    TasksOfStep(cfg, s, a);
  }

  lemma {:induction false} DraftTrace(cfg: Config, states: seq<State>, actions: seq<Action>, n: nat, c: nat)
    returns (k: nat)
    requires IsRun(cfg, states, actions) && n < |states| && c in states[n].tasks
    requires states[n].tasks[c].phase.Asked? && states[n].tasks[c].phase.frame.Inserting?
    ensures k < n && DraftsAt(states, actions, k) && actions[k].c == c
    ensures actions[k].id == states[n].tasks[c].phase.frame.draft.id
  {
    assert n > 0;
    var s, a := states[n - 1], actions[n - 1];
    assert StepAt(cfg, states, actions, n - 1);
    if c in s.tasks && s.tasks[c].phase == states[n].tasks[c].phase {
      k := DraftTrace(cfg, states, actions, n - 1, c);
    } else {
      BeginsToInsert(cfg, s, a, c);
      k := n - 1;
    }
  }

  lemma {:induction false} RankFalls(cfg: Config, states: seq<State>, actions: seq<Action>, m: nat, n: nat, c: nat)
    requires IsRun(cfg, states, actions) && m <= n < |states| && c in states[m].tasks
    ensures c in states[n].tasks && Rank(states[n].tasks[c].phase) <= Rank(states[m].tasks[c].phase)
    decreases n
  {
    if m < n {
      RankFalls(cfg, states, actions, m, n - 1, c);
      assert StepAt(cfg, states, actions, n - 1);
      CallsComeToAnEnd(cfg, states[n - 1], actions[n - 1]);
      TasksOfStep(cfg, states[n - 1], actions[n - 1]);
    }
  }

  /** The call that inserted a record was about to do so, with that record's identifier. */
  lemma InserterWasInserting(cfg: Config, s: State, a: Action, id: Text)
    requires Inv(cfg, s) && Enabled(cfg, s, a) && id !in s.table && id in Apply(cfg, s, a).table
    ensures a.c in s.tasks && a.Ask? && s.tasks[a.c].phase.Asked? && s.tasks[a.c].phase.frame.Inserting?
    ensures s.tasks[a.c].phase.frame.draft.id == id
  {
    StepAdds(cfg, s, a, id);
  }

  /** With fresh identifiers, the identifier of a draft is never taken when it is inserted. */
  lemma FreshIdsAreNotTaken(cfg: Config, states: seq<State>, actions: seq<Action>, n: nat, c: nat)
    requires IsRun(cfg, states, actions) && FreshIds(states, actions) && n < |states| && c in states[n].tasks
    requires states[n].tasks[c].phase.Asked? && states[n].tasks[c].phase.frame.Inserting?
    ensures states[n].tasks[c].phase.frame.draft.id !in states[n].table
  {
    var id := states[n].tasks[c].phase.frame.draft.id;
    if id in states[n].table {
      var i, e := SomeoneInserted(cfg, states, actions, n, id);
      RunKeepsInv(cfg, states, actions, i);
      assert StepAt(cfg, states, actions, i);
      InserterWasInserting(cfg, states[i], actions[i], id);
      var j := DraftTrace(cfg, states, actions, n, c);
      var k := DraftTrace(cfg, states, actions, i, e);
      assert j == k && e == c;
      CallsComeToAnEnd(cfg, states[i], actions[i]);
      RankFalls(cfg, states, actions, i + 1, n, c);
      assert false;
    }
  }

  /** Over the in-memory repository, with fresh identifiers and without faults, no create call
      ever throws. */
  lemma MemoryCreatesNeverFail(cfg: Config, states: seq<State>, actions: seq<Action>, n: nat, c: nat)
    requires IsRun(cfg, states, actions) && FaultFree(actions) && FreshIds(states, actions) && n < |states|
    requires cfg.backend == Memory && IsCreate(states[n], c)
    ensures states[n].tasks[c].phase != Finished(Failed)
  {
    if states[n].tasks[c].phase == Finished(Failed) {
      var i, j := FailingTrace(cfg, states, actions, n, c);
      FreshIdsAreNotTaken(cfg, states, actions, i, c);
    }
  }
}
