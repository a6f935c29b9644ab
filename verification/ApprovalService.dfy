/** The approval service as it is written, over the in-memory repository. Whenever a method
    waits for the repository, other calls may run; `OthersRun` stands for whatever they do. */
module ApprovalServices {
  import opened Wrappers
  import opened Texts
  import opened Requests
  import opened Bindings
  import opened PolicyTypes
  import opened ApprovalRecords
  import opened InMemoryApprovals
  import opened ApprovalProtocol
  import ApprovalDrafts

  /** A read between other calls returns a stage of the record between the two ends. */
  lemma ReadStep(before: Table, t: Table, after: Table, id: Text)
    requires TableSound(t) && TableEvolves(before, t) && TableEvolves(t, after)
    ensures TableEvolves(before, after)
    ensures id in t ==> t[id].draft.id == id && Known(after, t[id])
    ensures id in before ==> id in t && Evolves(before[id], t[id])
  {
    TableEvolvesTransitive(before, t, after);
  }

  lemma DecideStep(t: Table, u: Table, call: Call, now: int, row: Option<Record>)
    requires TableSound(t) && call.DecideCall? && call.status in {Approved, Denied}
    requires call.id in t && !t[call.id].DueBy(now)
    requires (u, Row(row))
          == Exec(t, Memory, Query.Decide(call.id, call.status, call.approver, now, call.reason), [])
    ensures TableEvolves(t, u) && TableSound(u) && UpdateHolds(u, call, now, Row(row))
    ensures row.Some? ==> row.value == u[call.id] && t[call.id].consumedAt.None?
  {
    if row.Some? { RowEvolves(t, call.id, row.value); }
  }

  lemma ConsumeStep(t: Table, u: Table, call: Call, now: int, row: Option<Record>)
    requires TableSound(t) && call.ConsumeCall? && call.id in t && !t[call.id].DueBy(now)
    requires t[call.id].status == Approved && SameBinding(t[call.id].draft.binding, BindingOf(call.context))
    requires (u, Row(row)) == Exec(t, Memory, Query.Consume(call.id, now, call.agent), [])
    ensures TableEvolves(t, u) && TableSound(u) && UpdateHolds(u, call, now, Row(row))
    ensures row.Some? ==> row.value == u[call.id] && t[call.id].consumedAt.None?
  {
    if row.Some? { RowEvolves(t, call.id, row.value); }
  }

  lemma MarkStep(t: Table, u: Table, id: Text, now: int, changed: bool)
    requires TableSound(t) && id in t && t[id].DueBy(now)
    requires (u, Flag(changed)) == Exec(t, Memory, Query.MarkExpired(id, now), [])
    ensures TableEvolves(t, u) && TableSound(u) && id in u && u[id].status != Pending && Known(u, u[id])
    ensures changed <==> t[id].status == Pending
    ensures changed ==> u[id] == ExpiredRecord(t[id], now)
  {
    if changed { RowEvolves(t, id, ExpiredRecord(t[id], now)); }
  }

  /** An update between other calls. */
  lemma UpdateBetween(
    before: Table, t: Table, u: Table, after: Table, call: Call, now: int, row: Option<Record>)
    requires (call.DecideCall? || call.ConsumeCall?) && call.id in before
    requires TableEvolves(before, t) && TableEvolves(t, u) && TableEvolves(u, after)
    requires UpdateHolds(u, call, now, Row(row)) && (row.Some? ==> row.value == u[call.id])
    ensures TableEvolves(before, after) && UpdateHolds(after, call, now, Row(row))
    ensures row.Some? ==> Evolves(before[call.id], row.value)
  {
    TableEvolvesTransitive(before, t, u);
    TableEvolvesTransitive(before, u, after);
    if row.Some? { KnownIsStable(u, after, row.value); }
  }

  lemma SweepIsStable(t: Table, u: Table, now: int, rows: seq<Record>)
    requires TableEvolves(t, u) && SweepHolds(t, now, Rows(rows))
    ensures SweepHolds(u, now, Rows(rows))
  {
    forall i | 0 <= i < |rows| ensures Known(u, rows[i]) {
      KnownIsStable(t, u, rows[i]);
    }
  }

  /** No record with this key was pending all the while. */
  ghost predicate NonePending(before: Table, after: Table, binding: Binding) {
    forall id | id in before && SameKey(Memory, before[id].draft.binding, binding) ::
      id in after && after[id].status != Pending
  }

  lemma NoneWasPending(before: Table, t: Table, after: Table, binding: Binding)
    requires TableEvolves(before, t) && TableEvolves(t, after) && Candidates(t, Memory, binding) == {}
    ensures NonePending(before, after, binding)
  {
    forall id | id in before && SameKey(Memory, before[id].draft.binding, binding)
      ensures id in after && after[id].status != Pending
    {
      assert id !in Candidates(t, Memory, binding);
    }
  }

  /** A sweep between other calls leaves nothing pending that was due when it began. */
  lemma SweepClears(before: Table, t: Table, u: Table, after: Table, now: int)
    requires TableEvolves(before, t) && u == ExpireSet(t, Stale(t, now), now) && TableEvolves(u, after)
    requires TableSound(t)
    ensures TableEvolves(before, after)
    ensures forall id | id in before && before[id].DueBy(now) :: after[id].status != Pending
  {
    SweepEvolves(t, now);
    TableEvolvesTransitive(before, t, u);
    TableEvolvesTransitive(before, u, after);
    forall id | id in before && before[id].DueBy(now) ensures after[id].status != Pending {
      assert t[id].DueBy(now) && u[id].status != Pending;
    }
  }

  /** The answer carries no older stage of the record than the one stored before. */
  ghost predicate IsLater(before: Table, id: Text, result: Outcome) {
    id in before ==>
      match result
      case Decided(r) => Evolves(before[id], r)
      case Consumed(r) => Evolves(before[id], r)
      case IsExpired(r) => Evolves(before[id], r)
      case AlreadyDecided(r) => Evolves(before[id], r)
      case NotApproved(r) => Evolves(before[id], r)
      case AlreadyConsumed(r) => Evolves(before[id], r)
      case BindingMismatch(r) => Evolves(before[id], r)
      case _ => true
  }

  lemma LaterStill(before: Table, t: Table, after: Table, id: Text, result: Outcome)
    requires TableEvolves(before, t) && TableEvolves(t, after) && IsLater(t, id, result)
    ensures TableEvolves(before, after) && IsLater(before, id, result)
  {
    TableEvolvesTransitive(before, t, after);
  }

  lemma FoundIsTruthful(cfg: Config, t: Table, call: Call, now: int, r: Record)
    requires call.CreateCall? && FoundHolds(cfg, t, BindingOf(call.context), Row(Some(r)))
    ensures Truthful(cfg, t, call, now, Existing(r))
  {}

  function KindOf(status: Status): EventKind {
    if status == Approved then ApprovalApproved else ApprovalDenied
  }

  class ApprovalService {
    const cfg: Config
    const repository: InMemoryApprovalRepository?
    var auditLog: seq<Entry>
    ghost var own: seq<Entry>
    ghost var foreign: multiset<Entry>
    /** The call of the transition system that runs in step with the method that is running, and
        the events that it has still to record. */
    ghost var task: Task
    ghost var owed: seq<Entry>

    /** The log holds what the methods below recorded and what other calls recorded. */
    ghost predicate Valid()
      reads this, repository
    {
      && cfg.backend == Memory
      && (cfg.available <==> repository != null)
      && (repository != null ==> repository.Valid() && TableSound(repository.approvals))
      && multiset(auditLog) == multiset(own) + foreign
    }

    ghost function Records(): Table
      reads this, repository
    {
      if repository == null then map[] else repository.approvals
    }

    constructor (cfg: Config, repository: InMemoryApprovalRepository?)
      requires cfg.backend == Memory && (cfg.available <==> repository != null)
      requires repository != null ==> repository.Valid() && TableSound(repository.approvals)
      ensures Valid() && this.cfg == cfg && this.repository == repository && auditLog == [] && own == []
    {
      this.cfg, this.repository, auditLog := cfg, repository, [];
      own, foreign, owed := [], multiset{}, [];
      task := Task(SweepCall, 0, Finished(Unavailable));
    }

    /** Other calls insert records, let records develop, and record events. */
    method OthersRun()
      requires Valid()
      modifies this, repository
      ensures Valid() && TableEvolves(old(Records()), Records()) && old(auditLog) <= auditLog
      ensures own == old(own) && task == old(task) && owed == old(owed)
    {}

    /** The operation that is about to be executed is the one that the call asks for. */
    ghost predicate Asks(query: Query)
      reads this
    {
      && task.phase.Asked? && Suits(task.call, task.phase.frame) && owed == []
      && QueryOf(task.call, task.now, task.phase.frame) == query
    }

    /** The call goes on with the answer. */
    ghost predicate WentOn(before: Task, reply: Reply, at: int, id: Text)
      requires before.phase.Asked? && Suits(before.call, before.phase.frame)
      reads this
    {
      && task == before.(phase := Resumed(cfg, before.call, before.now, before.phase.frame, reply, at, id))
      && owed == Emitted(before.call, before.now, before.phase.frame, reply)
    }

    ghost method GoOn(reply: Reply, at: int, id: Text)
      requires Valid() && task.phase.Asked? && Suits(task.call, task.phase.frame)
      modifies `task, `owed
      ensures Valid() && Records() == old(Records()) && WentOn(old(task), reply, at, id)
    {
      owed := Emitted(task.call, task.now, task.phase.frame, reply);
      task := task.(phase := Resumed(cfg, task.call, task.now, task.phase.frame, reply, at, id));
    }

    // The awaited repository operations, with other calls before and after each. Where two methods
    // share one, `Run` executes it and `Await` goes on with its answer.

    method RunFindPending(binding: Binding) returns (row: Option<Record>)
      requires Valid() && repository != null
      modifies this, repository
      ensures Valid() && TableEvolves(old(Records()), Records()) && old(auditLog) <= auditLog
      ensures own == old(own) && task == old(task) && owed == old(owed)
      ensures FoundHolds(cfg, Records(), binding, Row(row))
      ensures row.None? ==> NonePending(old(Records()), Records(), binding)
    {
      ghost var before := Records();
      OthersRun();
      ghost var t := Records();
      row := repository.FindPendingByBinding(binding);
      OthersRun();
      if row.Some? { KnownIsStable(t, Records(), row.value); }
      if row.None? { NoneWasPending(before, t, Records(), binding); }
    }

    method AwaitFindPending(binding: Binding, ghost at: int, ghost id: Text) returns (row: Option<Record>)
      requires Valid() && repository != null
      requires Asks(FindPending(binding))
      modifies this, repository
      ensures Valid() && TableEvolves(old(Records()), Records()) && old(auditLog) <= auditLog
      ensures own == old(own) && WentOn(old(task), Row(row), at, id)
      ensures FoundHolds(cfg, Records(), binding, Row(row))
      ensures row.None? ==> NonePending(old(Records()), Records(), binding)
    {
      row := RunFindPending(binding);
      GoOn(Row(row), at, id);
    }

    method AwaitCreate(draft: NewApproval) returns (ok: bool)
      requires Valid() && repository != null
      requires Asks(Insert(draft))
      modifies this, repository
      ensures Valid() && TableEvolves(old(Records()), Records()) && old(auditLog) <= auditLog
      ensures own == old(own) && WentOn(old(task), if ok then Done else Threw, 0, [])
      ensures ok ==> Known(Records(), PendingRecord(draft)) && draft.id !in old(Records())
      ensures !ok ==> draft.id in Records()
    {
      ghost var before := Records();
      OthersRun();
      ghost var t := Records();
      ok := repository.Create(draft);
      ghost var u := Records();
      if ok { RowEvolves(t, draft.id, PendingRecord(draft)); }
      OthersRun();
      if ok { KnownIsStable(u, Records(), PendingRecord(draft)); }
      TableEvolvesTransitive(t, u, Records());
      TableEvolvesTransitive(before, t, Records());
      GoOn(if ok then Done else Threw, 0, []);
    }

    method AwaitFind(id: Text) returns (row: Option<Record>)
      requires Valid() && repository != null
      requires Asks(Query.FindById(id))
      modifies this, repository
      ensures Valid() && TableEvolves(old(Records()), Records()) && old(auditLog) <= auditLog
      ensures own == old(own) && WentOn(old(task), Row(row), 0, [])
      ensures row.Some? ==> Known(Records(), row.value) && row.value.draft.id == id
      ensures row.Some? && id in old(Records()) ==> Evolves(old(Records())[id], row.value)
      ensures row.None? ==> id !in old(Records())
    {
      ghost var before := Records();
      OthersRun();
      ghost var t := Records();
      row := repository.FindById(id);
      OthersRun();
      ReadStep(before, t, Records(), id);
      GoOn(Row(row), 0, []);
    }

    method RunDecide(id: Text, status: Status, approver: Text, now: int, reason: Option<Text>)
      returns (row: Option<Record>)
      requires Valid() && repository != null && status in {Approved, Denied}
      requires id in Records() && !Records()[id].DueBy(now)
      modifies this, repository
      ensures Valid() && TableEvolves(old(Records()), Records()) && old(auditLog) <= auditLog
      ensures own == old(own) && task == old(task) && owed == old(owed)
      ensures UpdateHolds(Records(), DecideCall(id, status, approver, reason), now, Row(row))
      ensures row.Some? ==> Evolves(old(Records())[id], row.value)
    {
      ghost var before := Records();
      OthersRun();
      ghost var t := Records();
      row := repository.Decide(id, status, approver, now, reason);
      ghost var u := Records();
      DecideStep(t, u, DecideCall(id, status, approver, reason), now, row);
      OthersRun();
      UpdateBetween(before, t, u, Records(), DecideCall(id, status, approver, reason), now, row);
    }

    method AwaitDecide(id: Text, status: Status, approver: Text, now: int, reason: Option<Text>)
      returns (row: Option<Record>)
      requires Valid() && repository != null && status in {Approved, Denied}
      requires id in Records() && !Records()[id].DueBy(now)
      requires Asks(Query.Decide(id, status, approver, now, reason))
      modifies this, repository
      ensures Valid() && TableEvolves(old(Records()), Records()) && old(auditLog) <= auditLog
      ensures own == old(own) && WentOn(old(task), Row(row), 0, [])
      ensures UpdateHolds(Records(), DecideCall(id, status, approver, reason), now, Row(row))
      ensures row.Some? ==> Evolves(old(Records())[id], row.value)
    {
      row := RunDecide(id, status, approver, now, reason);
      GoOn(Row(row), 0, []);
    }

    method RunConsume(id: Text, now: int, ghost context: SecurityContext, agent: Text)
      returns (row: Option<Record>)
      requires Valid() && repository != null
      requires id in Records() && Records()[id].status == Approved && !Records()[id].DueBy(now)
      requires SameBinding(Records()[id].draft.binding, BindingOf(context))
      modifies this, repository
      ensures Valid() && TableEvolves(old(Records()), Records()) && old(auditLog) <= auditLog
      ensures own == old(own) && task == old(task) && owed == old(owed)
      ensures UpdateHolds(Records(), ConsumeCall(id, context, agent), now, Row(row))
      ensures row.Some? ==> old(Records())[id].consumedAt.None? && Evolves(old(Records())[id], row.value)
    {
      ghost var before := Records();
      OthersRun();
      ghost var t := Records();
      row := repository.Consume(id, now, agent);
      ghost var u := Records();
      ConsumeStep(t, u, ConsumeCall(id, context, agent), now, row);
      OthersRun();
      UpdateBetween(before, t, u, Records(), ConsumeCall(id, context, agent), now, row);
    }

    method AwaitConsume(id: Text, now: int, ghost context: SecurityContext, agent: Text)
      returns (row: Option<Record>)
      requires Valid() && repository != null
      requires id in Records() && Records()[id].status == Approved && !Records()[id].DueBy(now)
      requires SameBinding(Records()[id].draft.binding, BindingOf(context))
      requires Asks(Query.Consume(id, now, agent))
      modifies this, repository
      ensures Valid() && TableEvolves(old(Records()), Records()) && old(auditLog) <= auditLog
      ensures own == old(own) && WentOn(old(task), Row(row), 0, [])
      ensures UpdateHolds(Records(), ConsumeCall(id, context, agent), now, Row(row))
      ensures row.Some? ==> old(Records())[id].consumedAt.None? && Evolves(old(Records())[id], row.value)
    {
      row := RunConsume(id, now, context, agent);
      GoOn(Row(row), 0, []);
    }

    method RunMarkExpired(id: Text, now: int) returns (changed: bool)
      requires Valid() && repository != null && id in Records() && Records()[id].DueBy(now)
      modifies this, repository
      ensures Valid() && TableEvolves(old(Records()), Records()) && old(auditLog) <= auditLog
      ensures own == old(own) && task == old(task) && owed == old(owed)
      ensures Records()[id].status != Pending
      ensures changed && old(Records())[id].status == Pending ==>
                Known(Records(), ExpiredRecord(old(Records())[id], now))
      ensures old(Records())[id].status != Pending ==> !changed
    {
      ghost var before := Records();
      OthersRun();
      ghost var t := Records();
      changed := repository.MarkExpired(id, now);
      ghost var u := Records();
      MarkStep(t, u, id, now, changed);
      OthersRun();
      KnownIsStable(u, Records(), u[id]);
      TableEvolvesTransitive(t, u, Records());
      TableEvolvesTransitive(before, t, Records());
    }

    method AwaitMarkExpired(id: Text, now: int) returns (changed: bool)
      requires Valid() && repository != null && id in Records() && Records()[id].DueBy(now)
      requires Asks(Query.MarkExpired(id, now))
      modifies this, repository
      ensures Valid() && TableEvolves(old(Records()), Records()) && old(auditLog) <= auditLog
      ensures own == old(own) && WentOn(old(task), Flag(changed), 0, [])
      ensures Records()[id].status != Pending
      ensures changed && old(Records())[id].status == Pending ==>
                Known(Records(), ExpiredRecord(old(Records())[id], now))
      ensures old(Records())[id].status != Pending ==> !changed
    {
      changed := RunMarkExpired(id, now);
      GoOn(Flag(changed), 0, []);
    }

    method RunExpireStale(now: int) returns (expired: seq<Record>)
      requires Valid() && repository != null
      modifies this, repository
      ensures Valid() && TableEvolves(old(Records()), Records()) && old(auditLog) <= auditLog
      ensures own == old(own) && task == old(task) && owed == old(owed)
      ensures SweepHolds(Records(), now, Rows(expired))
      ensures forall id | id in old(Records()) && old(Records())[id].DueBy(now) ::
                Records()[id].status != Pending
    {
      ghost var before := Records();
      OthersRun();
      ghost var t, pick := Records(), StaleIn(Records(), repository.order, now);
      expired := repository.ExpireStale(now);
      SweepAnswers(cfg, t, now, pick);
      SweepEvolves(t, now);
      ghost var u := Records();
      assert SweepHolds(u, now, Rows(expired));
      OthersRun();
      SweepIsStable(u, Records(), now, expired);
      SweepClears(before, t, u, Records(), now);
    }

    method AwaitExpireStale(now: int) returns (expired: seq<Record>)
      requires Valid() && repository != null
      requires Asks(Query.ExpireStale(now))
      modifies this, repository
      ensures Valid() && TableEvolves(old(Records()), Records()) && old(auditLog) <= auditLog
      ensures own == old(own) && WentOn(old(task), Rows(expired), 0, [])
      ensures SweepHolds(Records(), now, Rows(expired))
      ensures forall id | id in old(Records()) && old(Records())[id].DueBy(now) ::
                Records()[id].status != Pending
    {
      expired := RunExpireStale(now);
      GoOn(Rows(expired), 0, []);
    }

    // The service's own methods.

    /** Records an event that the call has to record. */
    method Record(kind: EventKind, record: Record)
      requires Valid() && owed != [] && owed[0] == Entry(kind, record)
      modifies `auditLog, `own, `owed
      ensures Valid() && auditLog == old(auditLog) + [Entry(kind, record)]
      ensures own == old(own) + [Entry(kind, record)] && owed == old(owed)[1..]
    {
      auditLog := auditLog + [Entry(kind, record)];
      own := own + [Entry(kind, record)];
      owed := owed[1..];
    }

    /** The call of the transition system has come to its end with this answer, on the very
        operations and answers that the method had, and every event it asks for is recorded. */
    ghost predicate Ended(call: Call, now: int, result: Outcome)
      reads this
    {
      task == Task(call, now, Finished(result)) && owed == []
    }

    /** The approval can be executed now by a request in this context. */
    ghost predicate Executable(t: Table, id: Text, context: SecurityContext, now: int) {
      && id in t && t[id].status == Approved && t[id].consumedAt.None? && now < t[id].draft.expiresAt
      && SameBinding(t[id].draft.binding, BindingOf(context))
    }

    /** Nothing was recorded since `before`, or one event: that this record expired, as it did. */
    ghost predicate MayExpire(before: seq<Entry>, id: Text)
      reads this, repository
    {
      || own == before
      || (&& |own| == |before| + 1 && own[..|before|] == before
          && own[|before|].kind == ApprovalExpired && own[|before|].record.draft.id == id
          && own[|before|].record.status == Expired && Known(Records(), own[|before|].record))
    }

    method CreateForContext(context: SecurityContext, evaluation: PolicyEvaluation, ttl: Ttl, at: int, id: Text)
      returns (result: Outcome)
      requires Valid() && Shaped(context)
      modifies this, repository
      ensures Valid() && TableEvolves(old(Records()), Records()) && old(auditLog) <= auditLog
      ensures Ended(CreateCall(context, evaluation, ttl), at, result)
      ensures result == Failed ==> id in Records()
      ensures result.Created? ==> id !in old(Records())
      ensures repository == null <==> result == Unavailable
      ensures Truthful(cfg, Records(), CreateCall(context, evaluation, ttl), at, result)
      ensures result.Created? ==>
                && ApprovalDrafts.Describes(cfg, result.record.draft, CreateCall(context, evaluation, ttl))
                && result.record.draft.id == id && result.record.draft.createdAt == at
                && auditLog != [] && auditLog[|auditLog| - 1] == Entry(ApprovalCreated, result.record)
      ensures own == old(own) + if result.Created? then [Entry(ApprovalCreated, result.record)] else []
    {
      task, owed := Begun(cfg, CreateCall(context, evaluation, ttl), at), [];
      if repository == null { return Unavailable; }
      ghost var t := Records();
      var existing := AwaitFindPending(BindingOf(context), at, id);
      if existing.Some? {
        FoundIsTruthful(cfg, Records(), CreateCall(context, evaluation, ttl), at, existing.value);
        return Existing(existing.value);
      }

      ghost var u := Records();
      result := CreateNew(context, evaluation, ttl, at, id);
      TableEvolvesTransitive(t, u, Records());
    }

    /** What `createForContext` does when it found no pending approval. */
    method CreateNew(context: SecurityContext, evaluation: PolicyEvaluation, ttl: Ttl, at: int, id: Text)
      returns (result: Outcome)
      requires Valid() && repository != null && Shaped(context) && owed == []
      requires task.call == CreateCall(context, evaluation, ttl)
      requires task.phase == Asked(Inserting(Draft(cfg, task.call, at, id)))
      modifies this, repository
      ensures Valid() && TableEvolves(old(Records()), Records()) && old(auditLog) <= auditLog
      ensures Ended(old(task.call), old(task.now), result)
      ensures Truthful(cfg, Records(), CreateCall(context, evaluation, ttl), at, result)
      ensures result.Created? || result.Existing? || (result == Failed && id in Records())
      ensures result.Created? ==>
                && id !in old(Records())
                && ApprovalDrafts.Describes(cfg, result.record.draft, CreateCall(context, evaluation, ttl))
                && result.record.draft.id == id && result.record.draft.createdAt == at
                && auditLog != [] && auditLog[|auditLog| - 1] == Entry(ApprovalCreated, result.record)
      ensures own == old(own) + if result.Created? then [Entry(ApprovalCreated, result.record)] else []
    {
      var draft := NewApproval(id, context.requestId, BindingOf(context), RedactedArguments(context.toolArguments),
                               evaluation.policyId, evaluation.reason, at, at + ClampTtl(cfg, ttl));
      ApprovalDrafts.DraftDescribes(cfg, CreateCall(context, evaluation, ttl), at, id);
      result := InsertOrReuse(draft);
    }

    /** The last part of `createForContext`, for a binding without a pending approval. */
    method InsertOrReuse(draft: NewApproval) returns (result: Outcome)
      requires Valid() && repository != null
      requires task.call.CreateCall? && task.phase == Asked(Inserting(draft)) && owed == []
      modifies this, repository
      ensures Valid() && TableEvolves(old(Records()), Records()) && old(auditLog) <= auditLog
      ensures Ended(old(task.call), old(task.now), result)
      ensures match result
              case Created(r) => r == PendingRecord(draft) && Known(Records(), r) && draft.id !in old(Records())
              case Existing(r) => FoundHolds(cfg, Records(), draft.binding, Row(Some(r)))
              case _ => result == Failed && draft.id in Records()
      ensures result.Created? ==>
                auditLog != [] && auditLog[|auditLog| - 1] == Entry(ApprovalCreated, result.record)
      ensures own == old(own) + if result.Created? then [Entry(ApprovalCreated, result.record)] else []
    {
      ghost var t := Records();
      var ok := AwaitCreate(draft);
      if !ok {
        // Another request created the same pending approval, or the identifier is taken.
        ghost var u := Records();
        var raced := AwaitFindPending(draft.binding, 0, []);
        TableEvolvesTransitive(t, u, Records());
        if raced.Some? { return Existing(raced.value); }
        return Failed;
      }
      Record(ApprovalCreated, PendingRecord(draft));
      return Created(PendingRecord(draft));
    }

    /** After a decide call that found the record, the record is no longer pending. */
    method Decide(id: Text, status: Status, approver: Text, reason: Option<Text>, now: int)
      returns (result: Outcome)
      requires Valid() && status in {Approved, Denied}
      modifies this, repository
      ensures Valid() && TableEvolves(old(Records()), Records()) && old(auditLog) <= auditLog
      ensures Truthful(cfg, Records(), DecideCall(id, status, approver, reason), now, result) && result != Failed
      ensures Ended(DecideCall(id, status, approver, reason), now, result) && IsLater(old(Records()), id, result)
      ensures result == NotFound ==> id !in old(Records())
      ensures result != NotFound ==> id in Records() && Records()[id].status != Pending
      ensures result.Decided? ==>
                && auditLog != [] && auditLog[|auditLog| - 1] == Entry(KindOf(status), result.record)
                && own == old(own) + [Entry(KindOf(status), result.record)]
      ensures !result.Decided? ==> if result.IsExpired? then MayExpire(old(own), id) else own == old(own)
    {
      task, owed := Begun(cfg, DecideCall(id, status, approver, reason), now), [];
      if repository == null { return NotFound; }
      ghost var t := Records();
      var row := AwaitFind(id);
      if row.None? { return NotFound; }
      result := DecideFound(id, status, approver, reason, now, row.value, t);
    }

    /** What `decide` does with the record it read; `before` is the table when it began. */
    method DecideFound(
      id: Text, status: Status, approver: Text, reason: Option<Text>, now: int, current: Record, ghost before: Table)
      returns (result: Outcome)
      requires Valid() && repository != null && status in {Approved, Denied}
      requires TableEvolves(before, Records()) && Known(Records(), current) && current.draft.id == id
      requires id in before ==> Evolves(before[id], current)
      requires task.call == DecideCall(id, status, approver, reason) && task.now == now && owed == []
      requires task.phase == AfterDecideRead(current, now)
      modifies this, repository
      ensures Valid() && TableEvolves(before, Records()) && old(auditLog) <= auditLog
      ensures Truthful(cfg, Records(), DecideCall(id, status, approver, reason), now, result)
      ensures Ended(DecideCall(id, status, approver, reason), now, result) && IsLater(before, id, result)
      ensures result.Decided? || result.AlreadyDecided? || result.IsExpired?
      ensures Records()[id].status != Pending
      ensures result.Decided? ==>
                && auditLog != [] && auditLog[|auditLog| - 1] == Entry(KindOf(status), result.record)
                && own == old(own) + [Entry(KindOf(status), result.record)]
      ensures !result.Decided? ==> if result.IsExpired? then MayExpire(old(own), id) else own == old(own)
    {
      ghost var u := Records();
      if current.status == Pending && current.draft.expiresAt <= now {
        result := ExpireAndReread(current, now);
        LaterStill(before, u, Records(), id, result);
        return;
      }
      if current.status != Pending {
        return if current.status == Expired then IsExpired(current) else AlreadyDecided(current);
      }
      result := DecidePending(id, status, approver, reason, now, current);
      LaterStill(before, u, Records(), id, result);
    }

    /** The last part of `decide`, for a record it found pending and not yet due. */
    method DecidePending(
      id: Text, status: Status, approver: Text, reason: Option<Text>, now: int, ghost current: Record)
      returns (result: Outcome)
      requires task == Task(DecideCall(id, status, approver, reason), now, Asked(Updating(current))) && owed == []
      requires Valid() && repository != null && status in {Approved, Denied}
      requires id in Records() && !Records()[id].DueBy(now)
      modifies this, repository
      ensures Valid() && TableEvolves(old(Records()), Records()) && old(auditLog) <= auditLog
      ensures Truthful(cfg, Records(), DecideCall(id, status, approver, reason), now, result)
      ensures Ended(DecideCall(id, status, approver, reason), now, result) && IsLater(old(Records()), id, result)
      ensures result.Decided? || result.AlreadyDecided? || result.IsExpired?
      ensures Records()[id].status != Pending
      ensures result.Decided? ==>
                && auditLog != [] && auditLog[|auditLog| - 1] == Entry(KindOf(status), result.record)
                && own == old(own) + [Entry(KindOf(status), result.record)]
      ensures !result.Decided? ==> own == old(own)
    {
      ghost var t := Records();
      var updated := AwaitDecide(id, status, approver, now, reason);
      if updated.None? {
        ghost var u := Records();
        result := DecideLost(id, status, approver, reason, now, current);
        LaterStill(t, u, Records(), id, result);
        return;
      }
      Record(KindOf(status), updated.value);
      return Decided(updated.value);
    }

    /** Lost a race: somebody else decided, or the record expired in between. */
    method DecideLost(
      id: Text, status: Status, approver: Text, reason: Option<Text>, now: int, ghost current: Record)
      returns (result: Outcome)
      requires Valid() && repository != null && id in Records() && Records()[id].status != Pending
      requires task == Task(DecideCall(id, status, approver, reason), now, Asked(Rechecking(current))) && owed == []
      modifies this, repository
      ensures Valid() && TableEvolves(old(Records()), Records()) && old(auditLog) <= auditLog && own == old(own)
      ensures Truthful(cfg, Records(), DecideCall(id, status, approver, reason), now, result)
      ensures Ended(DecideCall(id, status, approver, reason), now, result) && IsLater(old(Records()), id, result)
      ensures result.AlreadyDecided? || result.IsExpired?
      ensures Records()[id].status != Pending
    {
      var after := AwaitFind(id);
      return if after.value.status == Expired then IsExpired(after.value) else AlreadyDecided(after.value);
    }

    /** Success means that the record was not consumed when the call began; an approval that could
        be executed then is executed, by this call or by a faster one. */
    method Consume(id: Text, context: SecurityContext, agent: Text, now: int) returns (result: Outcome)
      requires Valid() && Shaped(context)
      modifies this, repository
      ensures Valid() && TableEvolves(old(Records()), Records()) && old(auditLog) <= auditLog
      ensures Truthful(cfg, Records(), ConsumeCall(id, context, agent), now, result) && result != Failed
      ensures result == NotFound ==> id !in old(Records())
      ensures Ended(ConsumeCall(id, context, agent), now, result) && IsLater(old(Records()), id, result)
      ensures Executable(old(Records()), id, context, now) ==> result.Consumed? || result.AlreadyConsumed?
      ensures result.Consumed? && id in old(Records()) ==> old(Records())[id].consumedAt.None?
      ensures if result.IsExpired? then MayExpire(old(own), id) else own == old(own)
    {
      task, owed := Begun(cfg, ConsumeCall(id, context, agent), now), [];
      if repository == null { return NotFound; }
      ghost var t := Records();
      var row := AwaitFind(id);
      if row.None? { return NotFound; }
      result := ConsumeFound(id, context, agent, now, row.value, t);
    }

    /** What `consume` does with the record it read; `before` is the table when it began. */
    method ConsumeFound(
      id: Text, context: SecurityContext, agent: Text, now: int, current: Record, ghost before: Table)
      returns (result: Outcome)
      requires Valid() && repository != null
      requires TableEvolves(before, Records()) && Known(Records(), current) && current.draft.id == id
      requires id in before ==> Evolves(before[id], current)
      requires task.call == ConsumeCall(id, context, agent) && task.now == now && owed == []
      requires task.phase == AfterConsumeRead(current, now, context)
      modifies this, repository
      ensures Valid() && TableEvolves(before, Records()) && old(auditLog) <= auditLog
      ensures Truthful(cfg, Records(), ConsumeCall(id, context, agent), now, result)
      ensures result != Failed && result != NotFound
      ensures Ended(ConsumeCall(id, context, agent), now, result) && IsLater(before, id, result)
      ensures Executable(before, id, context, now) ==> result.Consumed? || result.AlreadyConsumed?
      ensures result.Consumed? && id in before ==> before[id].consumedAt.None?
      ensures if result.IsExpired? then MayExpire(old(own), id) else own == old(own)
    {
      ghost var u := Records();
      // Expiry comes first, so an expired approval is refused whatever its status reads.
      if current.draft.expiresAt <= now {
        result := ExpireAndReread(current, now);
        LaterStill(before, u, Records(), id, result);
        return;
      }
      if current.status == Expired { return IsExpired(current); }
      if current.status == Pending { return NotApproved(current); }
      if current.status == Denied { return NotApproved(current); }
      if current.consumedAt.Some? { return AlreadyConsumed(current); }
      if !SameBinding(current.draft.binding, BindingOf(context)) { return BindingMismatch(current); }

      result := ConsumeApproved(id, context, agent, now, current);
      LaterStill(before, u, Records(), id, result);
    }

    /** The last part of `consume`, for a record it found approved, unconsumed and its own. */
    method ConsumeApproved(id: Text, context: SecurityContext, agent: Text, now: int, ghost current: Record)
      returns (result: Outcome)
      requires task == Task(ConsumeCall(id, context, agent), now, Asked(Updating(current))) && owed == []
      requires Valid() && repository != null
      requires id in Records() && Records()[id].status == Approved && !Records()[id].DueBy(now)
      requires SameBinding(Records()[id].draft.binding, BindingOf(context))
      modifies this, repository
      ensures Valid() && TableEvolves(old(Records()), Records()) && old(auditLog) <= auditLog
      ensures Truthful(cfg, Records(), ConsumeCall(id, context, agent), now, result)
      ensures Ended(ConsumeCall(id, context, agent), now, result) && IsLater(old(Records()), id, result)
      ensures own == old(own) && (result.Consumed? || result.AlreadyConsumed?)
      ensures result.Consumed? ==> old(Records())[id].consumedAt.None?
    {
      ghost var t := Records();
      var consumed := AwaitConsume(id, now, context, agent);
      if consumed.None? {
        ghost var u := Records();
        var after := AwaitFind(id);
        TableEvolvesTransitive(t, u, Records());
        return AlreadyConsumed(after.value);
      }
      return Consumed(consumed.value);
    }

    /** Whatever was overdue when the sweep began is no longer pending when it ends. */
    method ExpireStale(now: int) returns (result: Outcome)
      requires Valid()
      modifies this, repository
      ensures Valid() && TableEvolves(old(Records()), Records()) && old(auditLog) <= auditLog
      ensures Ended(SweepCall, now, result)
      ensures result.Swept? && (repository == null ==> result == Swept([]))
      ensures Truthful(cfg, Records(), SweepCall, now, result)
      ensures |auditLog| >= |result.records|
           && auditLog[|auditLog| - |result.records|..] == ExpiredEntries(result.records)
      ensures own == old(own) + ExpiredEntries(result.records)
      ensures forall id | id in old(Records()) && old(Records())[id].DueBy(now) ::
                Records()[id].status != Pending
    {
      task, owed := Begun(cfg, SweepCall, now), [];
      if repository == null {
        return Swept([]);
      }
      var expired := AwaitExpireStale(now);
      RecordExpired(expired);
      return Swept(expired);
    }

    method RecordExpired(expired: seq<Record>)
      requires Valid() && owed == ExpiredEntries(expired)
      modifies `auditLog, `own, `owed
      ensures Valid() && auditLog == old(auditLog) + ExpiredEntries(expired)
      ensures own == old(own) + ExpiredEntries(expired) && owed == []
    {
      ghost var entries := ExpiredEntries(expired);
      for i := 0 to |expired|
        invariant Valid() && auditLog == old(auditLog) + entries[..i] && own == old(own) + entries[..i]
        invariant owed == entries[i..]
      {
        Record(ApprovalExpired, expired[i]);
      }
      assert entries[..|expired|] == entries;
    }

    /** What `decide` and `consume` do with a record that is due: expire it if it is pending,
        and read it again. */
    method ExpireAndReread(record: Record, now: int) returns (result: Outcome)
      requires Valid() && repository != null && Known(Records(), record) && record.DueBy(now)
      requires (task.call.DecideCall? || task.call.ConsumeCall?) && task.call.id == record.draft.id && owed == []
      requires task.now == now
      requires task.phase == Asked(if record.status == Pending then Expiring(record) else Rereading(record))
      modifies this, repository
      ensures Valid() && TableEvolves(old(Records()), Records()) && old(auditLog) <= auditLog
      ensures result.IsExpired? && Known(Records(), result.record) && result.record.draft == record.draft
      ensures result.record.status != Pending && Records()[record.draft.id].status != Pending
      ensures MayExpire(old(own), record.draft.id)
      ensures Ended(old(task.call), now, result) && IsLater(old(Records()), record.draft.id, result)
    {
      ghost var t := Records();
      if record.status == Pending {
        ExpireOne(record, now);
      }
      ghost var u, recorded := Records(), own;
      var after := AwaitFind(record.draft.id);
      TableEvolvesTransitive(t, u, Records());
      if |recorded| > |old(own)| { KnownIsStable(u, Records(), recorded[|old(own)|].record); }
      return IsExpired(if after.Some? then after.value else record);
    }

    /** The event shows the stale copy, which agrees with the updated row. */
    method ExpireOne(record: Record, now: int)
      requires Valid() && repository != null
      requires Known(Records(), record) && record.status == Pending && record.DueBy(now)
      requires (task.call.DecideCall? || task.call.ConsumeCall?) && task.now == now
      requires task.phase == Asked(Expiring(record)) && owed == []
      modifies this, repository
      ensures task == old(task).(phase := Asked(Rereading(record))) && owed == []
      ensures Valid() && TableEvolves(old(Records()), Records()) && old(auditLog) <= auditLog
      ensures Records()[record.draft.id].status != Pending && MayExpire(old(own), record.draft.id)
    {
      var changed := AwaitMarkExpired(record.draft.id, now);
      if changed {
        assert Known(Records(), ExpiredRecord(record, now));
        Record(ApprovalExpired, ExpiredRecord(record, now));
      }
    }
  }
}
