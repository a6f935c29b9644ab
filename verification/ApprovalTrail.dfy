/** The audit trail of approvals: what is recorded, over every run. */
module ApprovalTrail {
  import opened Wrappers
  import opened Texts
  import opened ApprovalRecords
  import opened ApprovalProtocol
  import opened ApprovalSafety

  /** Nothing is in flight. */
  ghost predicate AtRest(s: State) {
    forall c | c in s.tasks :: s.tasks[c].phase.Finished?
  }

  ghost predicate Recorded(s: State, id: Text) {
    forall k :: Tally(s.log, k, id) == Made(s.table, k, id)
  }

  /** Step i loses the answer to an operation whose event of this kind its call had still to
      record. */
  ghost predicate LosesEvent(states: seq<State>, actions: seq<Action>, i: nat, k: EventKind, id: Text)
    requires |states| == |actions| + 1
  {
    && i < |actions| && actions[i].Lose? && actions[i].c in states[i].tasks
    && Tally(Owed(states[i].tasks[actions[i].c]), k, id) > 0
  }

  /** No answer that called for an event about this approval was lost before state n. */
  ghost predicate NothingLost(states: seq<State>, actions: seq<Action>, n: nat, id: Text)
    requires |states| == |actions| + 1
  {
    forall i: nat, k | i < n :: !LosesEvent(states, actions, i, k, id)
  }

  lemma LostOfStep(cfg: Config, states: seq<State>, actions: seq<Action>, i: nat, k: EventKind, id: Text)
    requires IsRun(cfg, states, actions) && i < |actions|
    ensures Tally(states[i + 1].lost, k, id) > 0
       <==> Tally(states[i].lost, k, id) > 0 || LosesEvent(states, actions, i, k, id)
  {
    assert StepAt(cfg, states, actions, i);
    if actions[i].Lose? {
      TallyConcat(states[i].lost, Owed(states[i].tasks[actions[i].c]), k, id);
    }
  }

  lemma {:induction false} LostExactly(
    cfg: Config, states: seq<State>, actions: seq<Action>, n: nat, k: EventKind, id: Text)
    requires IsRun(cfg, states, actions) && n < |states|
    ensures Tally(states[n].lost, k, id) > 0 <==> exists i: nat :: i < n && LosesEvent(states, actions, i, k, id)
  {
    if n > 0 {
      LostExactly(cfg, states, actions, n - 1, k, id);
      LostOfStep(cfg, states, actions, n - 1, k, id);
    }
  }

  /** In the middle of a run, events recorded, owed and lost add up to the transitions made. */
  lemma EventsAddUp(cfg: Config, states: seq<State>, actions: seq<Action>, n: nat, k: EventKind, id: Text)
    requires IsRun(cfg, states, actions) && n < |states|
    ensures var s := states[n];
            Tally(s.log, k, id) + |Owing(s.tasks, k, id)| + Tally(s.lost, k, id) == Made(s.table, k, id)
  {
    RunKeepsInv(cfg, states, actions, n);
    assert Balance(states[n], k, id) == Made(states[n].table, k, id);
  }

  lemma TallyAtRest(cfg: Config, states: seq<State>, actions: seq<Action>, n: nat, k: EventKind, id: Text)
    requires IsRun(cfg, states, actions) && n < |states| && AtRest(states[n])
    ensures Tally(states[n].log, k, id) + Tally(states[n].lost, k, id) == Made(states[n].table, k, id)
    ensures Tally(states[n].lost, k, id) > 0 <==> exists i: nat :: i < n && LosesEvent(states, actions, i, k, id)
  {
    EventsAddUp(cfg, states, actions, n, k, id);
    assert Owing(states[n].tasks, k, id) == {};
    LostExactly(cfg, states, actions, n, k, id);
  }

  /** At rest the audit trail of an approval is complete exactly when no answer was lost whose
      operation had made one of its transitions. */
  lemma TrailIsCompleteUnlessLost(cfg: Config, states: seq<State>, actions: seq<Action>, n: nat, id: Text)
    requires IsRun(cfg, states, actions) && n < |states| && AtRest(states[n])
    ensures Recorded(states[n], id) <==> NothingLost(states, actions, n, id)
  {
    if Recorded(states[n], id) {
      forall i: nat, k | i < n ensures !LosesEvent(states, actions, i, k, id) {
        TallyAtRest(cfg, states, actions, n, k, id);
        assert Tally(states[n].log, k, id) == Made(states[n].table, k, id);
      }
    }
    if NothingLost(states, actions, n, id) {
      forall k ensures Tally(states[n].log, k, id) == Made(states[n].table, k, id) {
        TallyAtRest(cfg, states, actions, n, k, id);
      }
    }
  }

  /** One creation event if the approval exists, and exactly one of approved, denied and expired
      if and only if it left PENDING. */
  ghost predicate OneEventEach(s: State, id: Text) {
    && (Tally(s.log, ApprovalCreated, id) == if id in s.table then 1 else 0)
    && (Tally(s.log, ApprovalApproved, id) + Tally(s.log, ApprovalDenied, id) + Tally(s.log, ApprovalExpired, id)
        == if id in s.table && s.table[id].status != Pending then 1 else 0)
  }

  /** At rest there is one event per transition exactly when no such answer was lost. */
  lemma OneEventPerTransition(cfg: Config, states: seq<State>, actions: seq<Action>, n: nat, id: Text)
    requires IsRun(cfg, states, actions) && n < |states| && AtRest(states[n])
    ensures OneEventEach(states[n], id) <==> NothingLost(states, actions, n, id)
  {
    TrailIsCompleteUnlessLost(cfg, states, actions, n, id);
    TallyAtRest(cfg, states, actions, n, ApprovalCreated, id);
    TallyAtRest(cfg, states, actions, n, ApprovalApproved, id);
    TallyAtRest(cfg, states, actions, n, ApprovalDenied, id);
    TallyAtRest(cfg, states, actions, n, ApprovalExpired, id);
    var s := states[n];
    if OneEventEach(s, id) {
      forall k ensures Tally(s.log, k, id) == Made(s.table, k, id) {
        match k { case ApprovalCreated => case ApprovalApproved => case ApprovalDenied => case ApprovalExpired => }
      }
    }
  }

  /** If no answer is lost at all, every approval has its full trail whenever nothing is in
      flight, also when repository operations fail. */
  lemma NoLossNoGap(cfg: Config, states: seq<State>, actions: seq<Action>, n: nat, id: Text)
    requires IsRun(cfg, states, actions) && n < |states| && AtRest(states[n])
    requires forall i | 0 <= i < n :: !actions[i].Lose?
    ensures Recorded(states[n], id) && OneEventEach(states[n], id)
  {
    assert NothingLost(states, actions, n, id);
    TrailIsCompleteUnlessLost(cfg, states, actions, n, id);
    OneEventPerTransition(cfg, states, actions, n, id);
  }

  /** The event describes a stage that the stored record has reached. */
  ghost predicate EntryHolds(t: Table, e: Entry) {
    && Known(t, e.record)
    && match e.kind
       case ApprovalCreated => e.record == PendingRecord(e.record.draft)
       case ApprovalApproved => e.record.status == Approved && e.record.consumedAt.None?
       case ApprovalDenied => e.record.status == Denied
       case ApprovalExpired => e.record.status == Expired
  }

  ghost predicate EntriesHold(t: Table, es: seq<Entry>) {
    forall i | 0 <= i < |es| :: EntryHolds(t, es[i])
  }

  lemma OwedEntriesHold(cfg: Config, t: Table, task: Task)
    requires TaskHolds(cfg, t, task)
    ensures EntriesHold(t, Owed(task))
  {}

  lemma EntriesAreStable(t: Table, u: Table, es: seq<Entry>)
    requires TableEvolves(t, u) && EntriesHold(t, es)
    ensures EntriesHold(u, es)
  {
    forall i | 0 <= i < |es| ensures EntryHolds(u, es[i]) {
      KnownIsStable(t, u, es[i].record);
    }
  }

  /** Every recorded event shows a stage its record really went through. */
  lemma {:induction false} EventsAreTruthful(cfg: Config, states: seq<State>, actions: seq<Action>, n: nat)
    requires IsRun(cfg, states, actions) && n < |states|
    ensures EntriesHold(states[n].table, states[n].log)
  {
    if n > 0 {
      EventsAreTruthful(cfg, states, actions, n - 1);
      RunKeepsInv(cfg, states, actions, n - 1);
      StepOfRunEvolves(cfg, states, actions, n - 1);
      EntriesAreStable(states[n - 1].table, states[n].table, states[n - 1].log);
      LogOfStep(cfg, states, actions, n - 1);
    }
  }

  /** What a step adds to the log tells the truth. */
  lemma LogOfStep(cfg: Config, states: seq<State>, actions: seq<Action>, i: nat)
    requires IsRun(cfg, states, actions) && i < |actions| && Inv(cfg, states[i])
    requires EntriesHold(states[i + 1].table, states[i].log)
    ensures EntriesHold(states[i + 1].table, states[i + 1].log)
  {
    var s, a := states[i], actions[i];
    assert StepAt(cfg, states, actions, i);
    if a.Resume? {
      assert TaskHolds(cfg, s.table, s.tasks[a.c]);
      OwedEntriesHold(cfg, s.table, s.tasks[a.c]);
    }
  }

  // ---------------------------------------------------------------- a lost answer

  /** A state in which the only call is this one. */
  function Alone(t: Task, table: Table, lost: seq<Entry>): State {
    State(table, map[0 := t], [], lost)
  }

  lemma AloneStarts(cfg: Config, call: Call)
    requires cfg.available && ValidCall(call)
    ensures IsStep(cfg, INITIAL, Start(0, call, 0), Alone(Task(call, 0, Asked(FirstFrame(call))), map[], []))
  {}

  lemma AloneAsks(cfg: Config, t: Task, table: Table, lost: seq<Entry>, pick: seq<Text>)
    requires t.phase.Asked? && Suits(t.call, t.phase.frame)
    requires Legal(table, cfg.backend, QueryOf(t.call, t.now, t.phase.frame), pick)
    ensures var (u, reply) := Exec(table, cfg.backend, QueryOf(t.call, t.now, t.phase.frame), pick);
            IsStep(cfg, Alone(t, table, lost), Ask(0, pick),
                   Alone(t.(phase := Answered(t.phase.frame, reply)), u, lost))
  {}

  lemma AloneResumes(cfg: Config, t: Task, table: Table, lost: seq<Entry>, id: Text)
    requires t.phase.Answered? && Suits(t.call, t.phase.frame) && Owed(t) == []
    ensures var p := Resumed(cfg, t.call, t.now, t.phase.frame, t.phase.reply, 0, id);
            IsStep(cfg, Alone(t, table, lost), Resume(0, 0, id), Alone(t.(phase := p), table, lost))
  {}

  lemma AloneLoses(cfg: Config, t: Task, table: Table)
    requires t.phase.Answered? && Suits(t.call, t.phase.frame) && t.phase.reply != Threw
    ensures IsStep(cfg, Alone(t, table, []), Lose(0),
                   Alone(t.(phase := Answered(t.phase.frame, Threw)), table, Owed(t)))
  {}

  /** A create call whose insertion takes effect, and whose answer does not arrive. */
  function Losing(call: Call, id: Text): seq<Action> {
    [ Start(0, call, 0), Ask(0, []), Resume(0, 0, id), Ask(0, []), Lose(0), Resume(0, 0, []), Ask(0, [id]),
      Resume(0, 0, []) ]
  }

  function LosingPhases(draft: NewApproval): seq<Phase> {
    var r := PendingRecord(draft);
    [ Asked(Finding), Answered(Finding, Row(None)), Asked(Inserting(draft)), Answered(Inserting(draft), Done),
      Answered(Inserting(draft), Threw), Asked(Refinding(draft)), Answered(Refinding(draft), Row(Some(r))),
      Finished(Existing(r)) ]
  }

  function LosingStates(cfg: Config, call: Call, id: Text): seq<State>
    requires call.CreateCall?
  {
    var draft := Draft(cfg, call, 0, id);
    var ps, inserted := LosingPhases(draft), map[id := PendingRecord(draft)];
    var lost := [Entry(ApprovalCreated, PendingRecord(draft))];
    [ INITIAL,
      Alone(Task(call, 0, ps[0]), map[], []),
      Alone(Task(call, 0, ps[1]), map[], []),
      Alone(Task(call, 0, ps[2]), map[], []),
      Alone(Task(call, 0, ps[3]), inserted, []),
      Alone(Task(call, 0, ps[4]), inserted, lost),
      Alone(Task(call, 0, ps[5]), inserted, lost),
      Alone(Task(call, 0, ps[6]), inserted, lost),
      Alone(Task(call, 0, ps[7]), inserted, lost) ]
  }

  // The steps of this run.

  lemma LosingFindsNothing(cfg: Config, call: Call, id: Text)
    requires call.CreateCall?
    ensures IsStep(cfg, LosingStates(cfg, call, id)[1], Losing(call, id)[1], LosingStates(cfg, call, id)[2])
  {
    var draft := Draft(cfg, call, 0, id);
    var none: Table := map[];
    assert Candidates(none, cfg.backend, draft.binding) == {};
    AloneAsks(cfg, Task(call, 0, Asked(Finding)), none, [], []);
  }

  lemma LosingDrafts(cfg: Config, call: Call, id: Text)
    requires call.CreateCall?
    ensures IsStep(cfg, LosingStates(cfg, call, id)[2], Losing(call, id)[2], LosingStates(cfg, call, id)[3])
  {
    var draft := Draft(cfg, call, 0, id);
    AloneResumes(cfg, Task(call, 0, Answered(Finding, Row(None))), map[], [], id);
  }

  lemma LosingInserts(cfg: Config, call: Call, id: Text)
    requires call.CreateCall?
    ensures IsStep(cfg, LosingStates(cfg, call, id)[3], Losing(call, id)[3], LosingStates(cfg, call, id)[4])
  {
    var draft := Draft(cfg, call, 0, id);
    AloneAsks(cfg, Task(call, 0, Asked(Inserting(draft))), map[], [], []);
  }

  lemma LosingLoses(cfg: Config, call: Call, id: Text)
    requires call.CreateCall?
    ensures IsStep(cfg, LosingStates(cfg, call, id)[4], Losing(call, id)[4], LosingStates(cfg, call, id)[5])
  {
    var draft := Draft(cfg, call, 0, id);
    AloneLoses(cfg, Task(call, 0, Answered(Inserting(draft), Done)), map[id := PendingRecord(draft)]);
  }

  lemma LosingGoesOn(cfg: Config, call: Call, id: Text)
    requires call.CreateCall?
    ensures IsStep(cfg, LosingStates(cfg, call, id)[5], Losing(call, id)[5], LosingStates(cfg, call, id)[6])
  {
    var draft := Draft(cfg, call, 0, id);
    var inserted := map[id := PendingRecord(draft)];
    AloneResumes(cfg, Task(call, 0, Answered(Inserting(draft), Threw)), inserted,
                 [Entry(ApprovalCreated, PendingRecord(draft))], []);
  }

  lemma LosingFindsIt(cfg: Config, call: Call, id: Text)
    requires call.CreateCall?
    ensures IsStep(cfg, LosingStates(cfg, call, id)[6], Losing(call, id)[6], LosingStates(cfg, call, id)[7])
  {
    var draft := Draft(cfg, call, 0, id);
    var inserted := map[id := PendingRecord(draft)];
    assert Candidates(inserted, cfg.backend, draft.binding) == {id};
    AloneAsks(cfg, Task(call, 0, Asked(Refinding(draft))), inserted,
              [Entry(ApprovalCreated, PendingRecord(draft))], [id]);
  }

  lemma LosingEnds(cfg: Config, call: Call, id: Text)
    requires call.CreateCall?
    ensures IsStep(cfg, LosingStates(cfg, call, id)[7], Losing(call, id)[7], LosingStates(cfg, call, id)[8])
  {
    var draft := Draft(cfg, call, 0, id);
    var inserted := map[id := PendingRecord(draft)];
    AloneResumes(cfg, Task(call, 0, Answered(Refinding(draft), Row(Some(PendingRecord(draft))))), inserted,
                 [Entry(ApprovalCreated, PendingRecord(draft))], []);
  }

  lemma LosingIsARun(cfg: Config, call: Call, id: Text)
    requires cfg.available && call.CreateCall? && ValidCall(call)
    ensures IsRun(cfg, LosingStates(cfg, call, id), Losing(call, id))
  {
    var states, actions := LosingStates(cfg, call, id), Losing(call, id);
    forall i | 0 <= i < |actions| ensures StepAt(cfg, states, actions, i) {
      match i
      case 0 => AloneStarts(cfg, call);
      case 1 => LosingFindsNothing(cfg, call, id);
      case 2 => LosingDrafts(cfg, call, id);
      case 3 => LosingInserts(cfg, call, id);
      case 4 => LosingLoses(cfg, call, id);
      case 5 => LosingGoesOn(cfg, call, id);
      case 6 => LosingFindsIt(cfg, call, id);
      case _ => LosingEnds(cfg, call, id);
    }
  }

  /** An answer lost right after an insertion: the approval exists, its creator was told so, and
      the trail has no creation event. */
  lemma LostAnswerLeavesNoEvent(cfg: Config, call: Call, id: Text)
    requires cfg.available && call.CreateCall? && ValidCall(call)
    ensures var states, actions := LosingStates(cfg, call, id), Losing(call, id);
            && IsRun(cfg, states, actions) && AtRest(states[8]) && LosesEvent(states, actions, 4, ApprovalCreated, id)
            && id in states[8].table && states[8].tasks[0].phase.result == Existing(states[8].table[id])
            && Tally(states[8].log, ApprovalCreated, id) == 0
  {
    LosingIsARun(cfg, call, id);
    TallyOfOne(Entry(ApprovalCreated, PendingRecord(Draft(cfg, call, 0, id))), ApprovalCreated, id);
  }
}
