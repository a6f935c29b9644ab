/** The approval service as a set of calls that interleave at every awaited repository
    operation. Repository operations are atomic, and so is the code between two of them. */
module ApprovalProtocol {
  import opened Wrappers
  import opened Texts
  import opened Json
  import opened Requests
  import opened Bindings
  import opened PolicyTypes
  import opened ApprovalRecords
  import Redaction

  // ---------------------------------------------------------------- calls

  /** A time to live as the caller asked for it. */
  datatype Ttl = Unspecified | Finite(millis: int) | NotFinite

  datatype Config = Config(available: bool, backend: Backend, defaultTtl: int, maxTtl: int)

  datatype Call =
    | CreateCall(context: SecurityContext, evaluation: PolicyEvaluation, ttl: Ttl)
    | DecideCall(id: Text, status: Status, approver: Text, reason: Option<Text>)
    | ConsumeCall(id: Text, context: SecurityContext, agent: Text)
    | SweepCall

  datatype Outcome =
    | Created(record: Record)
    | Existing(record: Record)
    | Decided(record: Record)
    | Consumed(record: Record)
    | NotFound
    | IsExpired(record: Record)
    | AlreadyDecided(record: Record)
    | NotApproved(record: Record)
    | AlreadyConsumed(record: Record)
    | BindingMismatch(record: Record)
    | Swept(records: seq<Record>)
    | Unavailable
    | Failed

  /** What a suspended call remembers; each constructor is one `await`. */
  datatype Frame =
    | Finding
    | Inserting(draft: NewApproval)
    | Refinding(draft: NewApproval)
    | Reading
    | Expiring(current: Record)
    | Rereading(current: Record)
    | Updating(current: Record)
    | Rechecking(current: Record)
    | Sweeping

  datatype Phase = Asked(frame: Frame) | Answered(frame: Frame, reply: Reply) | Finished(result: Outcome)

  /** `now` is the time a decide, consume or sweep call captured when it began. */
  datatype Task = Task(call: Call, now: int, phase: Phase)

  datatype EventKind = ApprovalCreated | ApprovalApproved | ApprovalDenied | ApprovalExpired

  datatype Entry = Entry(kind: EventKind, record: Record)

  // ---------------------------------------------------------------- the code between awaits

  function ClampTtl(cfg: Config, ttl: Ttl): int {
    match ttl
    case Unspecified => if cfg.defaultTtl <= 0 then cfg.defaultTtl else Min(cfg.defaultTtl, cfg.maxTtl)
    case NotFinite => cfg.defaultTtl
    case Finite(ms) => if ms <= 0 then cfg.defaultTtl else Min(ms, cfg.maxTtl)
  }

  function Min(a: int, b: int): int {
    if a <= b then a else b
  }

  function RedactedArguments(args: Option<Json>): Json {
    if args.Some? then Redaction.Redacted(args.value, 0) else Obj([])
  }

  function Draft(cfg: Config, call: Call, at: int, id: Text): NewApproval
    requires call.CreateCall?
  {
    var c := call.context;
    NewApproval(id, c.requestId, BindingOf(c), RedactedArguments(c.toolArguments),
                call.evaluation.policyId, call.evaluation.reason, at, at + ClampTtl(cfg, call.ttl))
  }

  /** The first await of a call. */
  function FirstFrame(call: Call): Frame {
    match call
    case CreateCall(_, _, _) => Finding
    case DecideCall(_, _, _, _) => Reading
    case ConsumeCall(_, _, _) => Reading
    case SweepCall => Sweeping
  }

  /** The frames in which a call can wait. */
  predicate Suits(call: Call, f: Frame) {
    match f
    case Finding => call.CreateCall?
    case Inserting(_) => call.CreateCall?
    case Refinding(_) => call.CreateCall?
    case Sweeping => call.SweepCall?
    case _ => call.DecideCall? || call.ConsumeCall?
  }

  /** The repository operation a suspended call waits for. */
  function QueryOf(call: Call, now: int, f: Frame): Query
    requires Suits(call, f)
  {
    match f
    case Finding => FindPending(BindingOf(call.context))
    case Inserting(draft) => Insert(draft)
    case Refinding(draft) => FindPending(draft.binding)
    case Reading => FindById(call.id)
    case Expiring(current) => MarkExpired(current.draft.id, now)
    case Rereading(_) => FindById(call.id)
    case Updating(_) =>
      if call.DecideCall? then Query.Decide(call.id, call.status, call.approver, now, call.reason)
      else Query.Consume(call.id, now, call.agent)
    case Rechecking(_) => FindById(call.id)
    case Sweeping => ExpireStale(now)
  }

  /** What `decide` does with the record it read. */
  function AfterDecideRead(current: Record, now: int): Phase {
    if current.status == Pending && current.DueBy(now) then Asked(Expiring(current))
    else if current.status != Pending then
      Finished(if current.status == Expired then IsExpired(current) else AlreadyDecided(current))
    else Asked(Updating(current))
  }

  /** What `consume` does with the record it read. */
  function AfterConsumeRead(current: Record, now: int, context: SecurityContext): Phase {
    if current.DueBy(now) then
      Asked(if current.status == Pending then Expiring(current) else Rereading(current))
    else if current.status == Expired then Finished(IsExpired(current))
    else if current.status == Pending then Finished(NotApproved(current))
    else if current.status == Denied then Finished(NotApproved(current))
    else if current.consumedAt.Some? then Finished(AlreadyConsumed(current))
    else if !SameBinding(current.draft.binding, BindingOf(context)) then Finished(BindingMismatch(current))
    else Asked(Updating(current))
  }

  /** How a call goes on once its repository operation has answered. `at` and `id` are the
      clock reading and fresh identifier that only a create call takes here. */
  function Resumed(cfg: Config, call: Call, now: int, f: Frame, reply: Reply, at: int, id: Text): Phase
    requires Suits(call, f)
  {
    match (f, reply)
    case (Finding, Row(Some(r))) => Finished(Existing(r))
    case (Finding, Row(None)) => Asked(Inserting(Draft(cfg, call, at, id)))
    case (Inserting(draft), Done) => Finished(Created(PendingRecord(draft)))
    case (Inserting(draft), Threw) => Asked(Refinding(draft))
    case (Refinding(_), Row(Some(r))) => Finished(Existing(r))
    case (Reading, Row(None)) => Finished(NotFound)
    case (Reading, Row(Some(r))) =>
      if call.DecideCall? then AfterDecideRead(r, now) else AfterConsumeRead(r, now, call.context)
    case (Expiring(current), Flag(_)) => Asked(Rereading(current))
    case (Rereading(current), Row(row)) =>
      Finished(IsExpired(if row.Some? then row.value else current))
    case (Updating(_), Row(Some(r))) => Finished(if call.DecideCall? then Decided(r) else Consumed(r))
    case (Updating(current), Row(None)) => Asked(Rechecking(current))
    case (Rechecking(_), Row(None)) => Finished(NotFound)
    case (Rechecking(_), Row(Some(r))) =>
      Finished(if call.ConsumeCall? then AlreadyConsumed(r)
               else if r.status == Expired then IsExpired(r) else AlreadyDecided(r))
    case (Sweeping, Rows(rows)) => Finished(Swept(rows))
    case _ => Finished(Failed)
  }

  lemma ResumedIsNotAnswered(cfg: Config, call: Call, now: int, f: Frame, reply: Reply, at: int, id: Text)
    requires Suits(call, f)
    ensures !Resumed(cfg, call, now, f, reply, at, id).Answered?
  {}

  function ExpiredEntries(rows: seq<Record>): (es: seq<Entry>)
    ensures |es| == |rows| && forall i | 0 <= i < |rows| :: es[i] == Entry(ApprovalExpired, rows[i])
  {
    if rows == [] then [] else [Entry(ApprovalExpired, rows[0])] + ExpiredEntries(rows[1..])
  }

  /** The audit events a call records when it goes on after an answer. */
  function Emitted(call: Call, now: int, f: Frame, reply: Reply): seq<Entry> {
    match (f, reply)
    case (Inserting(draft), Done) => [Entry(ApprovalCreated, PendingRecord(draft))]
    case (Expiring(current), Flag(true)) => [Entry(ApprovalExpired, ExpiredRecord(current, now))]
    case (Updating(_), Row(Some(r))) =>
      if call.DecideCall? then
        [Entry(if call.status == Approved then ApprovalApproved else ApprovalDenied, r)]
      else []
    case (Sweeping, Rows(rows)) => ExpiredEntries(rows)
    case _ => []
  }

  // ---------------------------------------------------------------- the transition system

  /** `lost` holds the events of answers that never reached their call. */
  datatype State = State(table: Table, tasks: map<nat, Task>, log: seq<Entry>, lost: seq<Entry>)

  const INITIAL: State := State(map[], map[], [], [])

  /** A call begins, its repository operation runs or fails, its answer is lost on the way
      back, or it goes on with the answer. */
  datatype Action =
    | Start(c: nat, call: Call, now: int)
    | Ask(c: nat, pick: seq<Text>)
    | Fail(c: nat)
    | Lose(c: nat)
    | Resume(c: nat, at: int, id: Text)

  ghost predicate ValidCall(call: Call) {
    && (call.DecideCall? ==> call.status == Approved || call.status == Denied)
    && (call.CreateCall? ==> Shaped(call.context))
    && (call.ConsumeCall? ==> Shaped(call.context))
  }

  ghost predicate Waiting(s: State, c: nat) {
    c in s.tasks && s.tasks[c].phase.Asked? && Suits(s.tasks[c].call, s.tasks[c].phase.frame)
  }

  ghost predicate Served(s: State, c: nat) {
    c in s.tasks && s.tasks[c].phase.Answered? && Suits(s.tasks[c].call, s.tasks[c].phase.frame)
  }

  ghost predicate Enabled(cfg: Config, s: State, a: Action) {
    match a
    case Start(c, call, now) => c !in s.tasks && ValidCall(call)
    case Ask(c, pick) =>
      && Waiting(s, c)
      && var t := s.tasks[c]; Legal(s.table, cfg.backend, QueryOf(t.call, t.now, t.phase.frame), pick)
    case Fail(c) => Waiting(s, c)
    case Lose(c) => Served(s, c) && s.tasks[c].phase.reply != Threw
    case Resume(c, at, id) => Served(s, c)
  }

  function Begun(cfg: Config, call: Call, now: int): Task {
    Task(call, now,
         if cfg.available then Asked(FirstFrame(call))
         else Finished(match call
                       case CreateCall(_, _, _) => Unavailable
                       case SweepCall => Swept([])
                       case _ => NotFound))
  }

  ghost function Apply(cfg: Config, s: State, a: Action): State
    requires Enabled(cfg, s, a)
  {
    match a
    case Start(c, call, now) => s.(tasks := s.tasks[c := Begun(cfg, call, now)])
    case Ask(c, pick) =>
      var t := s.tasks[c];
      var (table, reply) := Exec(s.table, cfg.backend, QueryOf(t.call, t.now, t.phase.frame), pick);
      s.(table := table, tasks := s.tasks[c := t.(phase := Answered(t.phase.frame, reply))])
    case Fail(c) =>
      var t := s.tasks[c];
      s.(tasks := s.tasks[c := t.(phase := Answered(t.phase.frame, Threw))])
    case Lose(c) =>
      var t := s.tasks[c];
      s.(tasks := s.tasks[c := t.(phase := Answered(t.phase.frame, Threw))], lost := s.lost + Owed(t))
    case Resume(c, at, id) =>
      var t := s.tasks[c];
      s.(tasks := s.tasks[c := t.(phase := Resumed(cfg, t.call, t.now, t.phase.frame, t.phase.reply, at, id))],
         log := s.log + Owed(t))
  }

  /** The events a call still has to record: its answer has arrived, its code has not run. */
  function Owed(t: Task): seq<Entry> {
    if t.phase.Answered? then Emitted(t.call, t.now, t.phase.frame, t.phase.reply) else []
  }

  // ---------------------------------------------------------------- records over time

  /** How a stored record may develop: creation data never change, a decision is final, and
      so is consumption. */
  ghost predicate Evolves(r: Record, s: Record) {
    && s.draft == r.draft
    && (r.status != Pending ==>
          && s.status == r.status && s.approverId == r.approverId
          && s.decidedAt == r.decidedAt && s.decisionReason == r.decisionReason)
    && (r.consumedAt.Some? ==> s.consumedAt == r.consumedAt && s.consumedBy == r.consumedBy)
  }

  ghost predicate TableEvolves(t: Table, u: Table) {
    forall id | id in t :: id in u && Evolves(t[id], u[id])
  }

  /** What every record satisfies on its own. */
  ghost predicate Sound(r: Record) {
    && (r.status == Pending <==> r.decidedAt.None?)
    && (r.status in {Approved, Denied} <==> r.approverId.Some?)
    && (r.status in {Pending, Expired} ==> r.decisionReason.None?)
    && (r.status in {Approved, Denied} ==> r.decidedAt.value < r.draft.expiresAt)
    && (r.status == Expired ==> r.draft.expiresAt <= r.decidedAt.value)
    && (r.consumedAt.Some? ==> r.status == Approved && r.consumedAt.value < r.draft.expiresAt)
    && (r.consumedAt.Some? <==> r.consumedBy.Some?)
  }

  /** The record was read from the table and may since have developed there. */
  ghost predicate Known(t: Table, r: Record) {
    r.draft.id in t && Evolves(r, t[r.draft.id]) && Sound(r)
  }

  ghost predicate TableSound(t: Table) {
    forall id | id in t :: t[id].draft.id == id && Sound(t[id])
  }

  // ---------------------------------------------------------------- what a call knows

  /** The draft a create call inserts. */
  ghost predicate DraftOf(cfg: Config, call: Call, d: NewApproval) {
    call.CreateCall? && d == Draft(cfg, call, d.createdAt, d.id)
  }

  /** At a suspended call: facts about its local variables that no other call can undo. */
  ghost predicate FrameHolds(cfg: Config, t: Table, call: Call, now: int, f: Frame) {
    && Suits(call, f)
    && match f
       case Inserting(d) => DraftOf(cfg, call, d)
       case Refinding(d) => DraftOf(cfg, call, d)
       case Expiring(r) => Known(t, r) && r.draft.id == call.id && r.status == Pending && r.DueBy(now)
       case Rereading(r) =>
         && Known(t, r) && r.draft.id == call.id && r.DueBy(now) && t[call.id].status != Pending
       case Updating(r) => MayUpdate(t, call, now, r)
       case Rechecking(r) => MayUpdate(t, call, now, r) && UpdateIsLost(t, call)
       case _ => true
  }

  ghost predicate MayUpdate(t: Table, call: Call, now: int, r: Record) {
    && Known(t, r) && (call.DecideCall? || call.ConsumeCall?) && r.draft.id == call.id && !r.DueBy(now)
    && (call.DecideCall? ==> r.status == Pending)
    && (call.ConsumeCall? ==>
          && r.status == Approved && r.consumedAt.None?
          && SameBinding(r.draft.binding, BindingOf(call.context)))
  }

  /** Another call was faster; the update can never succeed any more. */
  ghost predicate UpdateIsLost(t: Table, call: Call)
    requires call.DecideCall? || call.ConsumeCall?
  {
    && call.id in t
    && if call.DecideCall? then t[call.id].status != Pending else t[call.id].consumedAt.Some?
  }

  /** At an answered call: facts about the answer that no other call can undo. */
  ghost predicate ReplyHolds(cfg: Config, t: Table, call: Call, now: int, f: Frame, reply: Reply)
    requires FrameHolds(cfg, t, call, now, f)
  {
    reply == Threw ||
    match f
    case Finding => FoundHolds(cfg, t, BindingOf(call.context), reply)
    case Refinding(d) => FoundHolds(cfg, t, d.binding, reply)
    case Inserting(d) => reply == Done && d.id in t && t[d.id].draft == d
    case Reading => ReadHolds(t, call.id, reply)
    case Rereading(_) =>
      ReadHolds(t, call.id, reply) && reply.row.Some? && reply.row.value.status != Pending
    case Rechecking(_) =>
      && ReadHolds(t, call.id, reply) && reply.row.Some?
      && if call.DecideCall? then reply.row.value.status != Pending else reply.row.value.consumedAt.Some?
    case Expiring(r) =>
      && reply.Flag?
      && (reply.changed ==> Known(t, ExpiredRecord(r, now)))
      && t[call.id].status != Pending
    case Updating(_) => UpdateHolds(t, call, now, reply)
    case Sweeping => SweepHolds(t, now, reply)
  }

  ghost predicate FoundHolds(cfg: Config, t: Table, binding: Binding, reply: Reply) {
    && reply.Row?
    && (reply.row.Some? ==>
          && Known(t, reply.row.value) && reply.row.value.status == Pending
          && SameKey(cfg.backend, reply.row.value.draft.binding, binding))
  }

  ghost predicate ReadHolds(t: Table, id: Text, reply: Reply) {
    && reply.Row?
    && (reply.row.Some? ==> Known(t, reply.row.value) && reply.row.value.draft.id == id)
  }

  ghost predicate UpdateHolds(t: Table, call: Call, now: int, reply: Reply)
    requires call.DecideCall? || call.ConsumeCall?
  {
    && ReadHolds(t, call.id, reply)
    && match reply.row
       case None => UpdateIsLost(t, call)
       case Some(r) =>
         if call.DecideCall? then IsDecision(r, call, now) else IsConsumption(r, call, now)
  }

  ghost predicate IsDecision(r: Record, call: Call, now: int)
    requires call.DecideCall?
  {
    && r.draft.id == call.id && r.status == call.status && r.approverId == Some(call.approver)
    && r.decidedAt == Some(now) && r.decisionReason == call.reason && r.consumedAt.None?
  }

  ghost predicate IsConsumption(r: Record, call: Call, now: int)
    requires call.ConsumeCall?
  {
    && r.draft.id == call.id && r.status == Approved
    && r.consumedAt == Some(now) && r.consumedBy == Some(call.agent) && now < r.draft.expiresAt
    && SameBinding(r.draft.binding, BindingOf(call.context))
  }

  ghost predicate SweepHolds(t: Table, now: int, reply: Reply) {
    && reply.Rows?
    && (forall i, j | 0 <= i < j < |reply.rows| :: reply.rows[i].draft.id != reply.rows[j].draft.id)
    && forall i | 0 <= i < |reply.rows| ::
         Known(t, reply.rows[i]) && reply.rows[i].status == Expired && reply.rows[i].DueBy(now)
  }

  /** A result says the truth about the record it carries. */
  ghost predicate Truthful(cfg: Config, t: Table, call: Call, now: int, result: Outcome) {
    match result
    case Created(r) => Known(t, r) && DraftOf(cfg, call, r.draft) && r == PendingRecord(r.draft)
    case Existing(r) =>
      && Known(t, r) && r.status == Pending && call.CreateCall?
      && SameKey(cfg.backend, r.draft.binding, BindingOf(call.context))
    case Decided(r) => Known(t, r) && call.DecideCall? && IsDecision(r, call, now) && now < r.draft.expiresAt
    case Consumed(r) => Known(t, r) && call.ConsumeCall? && IsConsumption(r, call, now)
    case NotFound => call.DecideCall? || call.ConsumeCall?
    case IsExpired(r) =>
      && Known(t, r) && (call.DecideCall? || call.ConsumeCall?) && r.draft.id == call.id
      && (r.status == Expired || (r.status in {Approved, Denied} && r.DueBy(now)))
    case AlreadyDecided(r) =>
      Known(t, r) && call.DecideCall? && r.draft.id == call.id && r.status in {Approved, Denied}
    case NotApproved(r) =>
      && Known(t, r) && call.ConsumeCall? && r.draft.id == call.id
      && r.status in {Pending, Denied} && !r.DueBy(now)
    case AlreadyConsumed(r) =>
      Known(t, r) && call.ConsumeCall? && r.draft.id == call.id && r.consumedAt.Some?
    case BindingMismatch(r) =>
      && Known(t, r) && call.ConsumeCall? && r.draft.id == call.id
      && r.status == Approved && !r.DueBy(now)
      && !SameBinding(r.draft.binding, BindingOf(call.context))
    case Swept(rows) => call.SweepCall? && SweepHolds(t, now, Rows(rows))
    case Unavailable => call.CreateCall? && !cfg.available
    case Failed => true
  }

  ghost predicate TaskHolds(cfg: Config, t: Table, task: Task) {
    && ValidCall(task.call)
    && match task.phase
       case Asked(f) => FrameHolds(cfg, t, task.call, task.now, f)
       case Answered(f, reply) =>
         && FrameHolds(cfg, t, task.call, task.now, f)
         && ReplyHolds(cfg, t, task.call, task.now, f, reply)
       case Finished(result) => Truthful(cfg, t, task.call, task.now, result)
  }

  // ---------------------------------------------------------------- stability

  lemma EvolvesTransitive(r: Record, s: Record, u: Record)
    requires Evolves(r, s) && Evolves(s, u)
    ensures Evolves(r, u)
  {}

  lemma TableEvolvesTransitive(t: Table, u: Table, v: Table)
    requires TableEvolves(t, u) && TableEvolves(u, v)
    ensures TableEvolves(t, v)
  {
    forall id | id in t ensures Evolves(t[id], v[id]) {
      EvolvesTransitive(t[id], u[id], v[id]);
    }
  }

  lemma KnownIsStable(t: Table, u: Table, r: Record)
    requires TableEvolves(t, u) && Known(t, r)
    ensures Known(u, r)
  {
    EvolvesTransitive(r, t[r.draft.id], u[r.draft.id]);
  }

  lemma KnownStays(t: Table, u: Table)
    requires TableEvolves(t, u)
    ensures forall r | Known(t, r) :: Known(u, r)
  {
    forall r | Known(t, r) ensures Known(u, r) {
      KnownIsStable(t, u, r);
    }
  }

  lemma FrameHoldsIsStable(cfg: Config, t: Table, u: Table, call: Call, now: int, f: Frame)
    requires TableEvolves(t, u) && FrameHolds(cfg, t, call, now, f)
    ensures FrameHolds(cfg, u, call, now, f)
  {
    KnownStays(t, u);
  }

  lemma ReplyHoldsIsStable(cfg: Config, t: Table, u: Table, call: Call, now: int, f: Frame, reply: Reply)
    requires TableEvolves(t, u) && FrameHolds(cfg, t, call, now, f) && FrameHolds(cfg, u, call, now, f)
    requires ReplyHolds(cfg, t, call, now, f, reply)
    ensures ReplyHolds(cfg, u, call, now, f, reply)
  {
    KnownStays(t, u);
  }

  lemma TruthIsStable(cfg: Config, t: Table, u: Table, call: Call, now: int, result: Outcome)
    requires TableEvolves(t, u) && Truthful(cfg, t, call, now, result)
    ensures Truthful(cfg, u, call, now, result)
  {
    KnownStays(t, u);
  }

  /** What a call knows stays true whatever the other calls do to the table. */
  lemma TaskHoldsIsStable(cfg: Config, t: Table, u: Table, task: Task)
    requires TableEvolves(t, u) && TaskHolds(cfg, t, task)
    ensures TaskHolds(cfg, u, task)
  {
    match task.phase
    case Asked(f) => FrameHoldsIsStable(cfg, t, u, task.call, task.now, f);
    case Answered(f, reply) =>
      FrameHoldsIsStable(cfg, t, u, task.call, task.now, f);
      ReplyHoldsIsStable(cfg, t, u, task.call, task.now, f, reply);
    case Finished(result) => TruthIsStable(cfg, t, u, task.call, task.now, result);
  }

  // ---------------------------------------------------------------- one repository step

  lemma RowEvolves(t: Table, id: Text, r: Record)
    requires TableSound(t) && Sound(r) && r.draft.id == id && (id in t ==> Evolves(t[id], r))
    ensures TableEvolves(t, t[id := r]) && TableSound(t[id := r])
  {}

  lemma SweepEvolves(t: Table, now: int)
    requires TableSound(t)
    ensures var u := ExpireSet(t, Stale(t, now), now); TableEvolves(t, u) && TableSound(u)
  {
    var u := ExpireSet(t, Stale(t, now), now);
    forall id | id in t ensures Evolves(t[id], u[id]) && Sound(u[id]) && u[id].draft.id == id {
      assert Sound(t[id]);
    }
  }

  lemma ExecEvolves(cfg: Config, t: Table, call: Call, now: int, f: Frame, pick: seq<Text>)
    requires TableSound(t) && ValidCall(call) && FrameHolds(cfg, t, call, now, f)
    requires Legal(t, cfg.backend, QueryOf(call, now, f), pick)
    ensures var u := Exec(t, cfg.backend, QueryOf(call, now, f), pick).0;
            TableEvolves(t, u) && TableSound(u)
  {
    match QueryOf(call, now, f)
    case Insert(draft) =>
      if Insertable(t, cfg.backend, draft) {
        RowEvolves(t, draft.id, PendingRecord(draft));
      }
    case Decide(id, status, approver, at, reason) =>
      if Decidable(t, id, at) {
        RowEvolves(t, id, DecidedRecord(t[id], status, approver, at, reason));
      }
    case Consume(id, at, agent) =>
      if Consumable(t, id, at) {
        RowEvolves(t, id, ConsumedRecord(t[id], at, agent));
      }
    case MarkExpired(id, at) =>
      if id in t && t[id].status == Pending {
        RowEvolves(t, id, ExpiredRecord(t[id], at));
      }
    case ExpireStale(at) => SweepEvolves(t, at);
    case _ =>
  }

  lemma SweepAnswers(cfg: Config, t: Table, now: int, pick: seq<Text>)
    requires TableSound(t) && Legal(t, cfg.backend, ExpireStale(now), pick)
    ensures var (u, reply) := Exec(t, cfg.backend, ExpireStale(now), pick); SweepHolds(u, now, reply)
  {
    ListsItsElements(pick, Stale(t, now));
    SweepEvolves(t, now);
    var u := ExpireSet(t, Stale(t, now), now);
    var rows := ExpiredRows(t, pick, now);
    forall i | 0 <= i < |pick| ensures u[pick[i]] == rows[i] && t[pick[i]].DueBy(now) {
      assert pick[i] in Stale(t, now);
    }
  }

  lemma UpdateAnswers(cfg: Config, t: Table, call: Call, now: int, f: Frame)
    requires TableSound(t) && ValidCall(call) && FrameHolds(cfg, t, call, now, f) && f.Updating?
    ensures var (u, reply) := Exec(t, cfg.backend, QueryOf(call, now, f), []); UpdateHolds(u, call, now, reply)
  {
    assert Known(t, f.current) && Sound(t[call.id]);
  }

  lemma CreateAnswers(cfg: Config, t: Table, call: Call, now: int, f: Frame, pick: seq<Text>)
    requires TableSound(t) && FrameHolds(cfg, t, call, now, f) && call.CreateCall?
    requires Legal(t, cfg.backend, QueryOf(call, now, f), pick)
    ensures var (u, reply) := Exec(t, cfg.backend, QueryOf(call, now, f), pick);
            FrameHolds(cfg, u, call, now, f) && ReplyHolds(cfg, u, call, now, f, reply)
  {}

  /** The reads of a decide or consume call, and the expiry of the record it read. */
  lemma ReadAnswers(cfg: Config, t: Table, call: Call, now: int, f: Frame)
    requires TableSound(t) && FrameHolds(cfg, t, call, now, f) && (call.DecideCall? || call.ConsumeCall?)
    requires !f.Updating?
    requires FrameHolds(cfg, Exec(t, cfg.backend, QueryOf(call, now, f), []).0, call, now, f)
    ensures var (u, reply) := Exec(t, cfg.backend, QueryOf(call, now, f), []);
            ReplyHolds(cfg, u, call, now, f, reply)
  {
    if call.id in t { assert Sound(t[call.id]); }
  }

  /** The answer of a repository operation establishes what the call relies on next. */
  lemma ExecAnswers(cfg: Config, t: Table, call: Call, now: int, f: Frame, pick: seq<Text>)
    requires TableSound(t) && ValidCall(call) && FrameHolds(cfg, t, call, now, f)
    requires Legal(t, cfg.backend, QueryOf(call, now, f), pick)
    ensures var (u, reply) := Exec(t, cfg.backend, QueryOf(call, now, f), pick);
            FrameHolds(cfg, u, call, now, f) && ReplyHolds(cfg, u, call, now, f, reply)
  {
    ExecEvolves(cfg, t, call, now, f, pick);
    FrameHoldsIsStable(cfg, t, Exec(t, cfg.backend, QueryOf(call, now, f), pick).0, call, now, f);
    if f.Sweeping? {
      SweepAnswers(cfg, t, now, pick);
    } else if f.Updating? {
      UpdateAnswers(cfg, t, call, now, f);
    } else if call.CreateCall? {
      CreateAnswers(cfg, t, call, now, f, pick);
    } else {
      ReadAnswers(cfg, t, call, now, f);
    }
  }

  lemma DecideReadHolds(cfg: Config, t: Table, call: Call, now: int, r: Record)
    requires ValidCall(call) && call.DecideCall? && Known(t, r) && r.draft.id == call.id
    ensures TaskHolds(cfg, t, Task(call, now, AfterDecideRead(r, now)))
  {}

  lemma ConsumeReadHolds(cfg: Config, t: Table, call: Call, now: int, r: Record)
    requires ValidCall(call) && call.ConsumeCall? && Known(t, r) && r.draft.id == call.id
    ensures TaskHolds(cfg, t, Task(call, now, AfterConsumeRead(r, now, call.context)))
  {}

  lemma LookupResumes(cfg: Config, t: Table, task: Task, at: int, id: Text)
    requires TaskHolds(cfg, t, task) && task.phase.Answered?
    requires task.phase.frame.Finding? || task.phase.frame.Refinding?
    ensures var f := task.phase.frame;
            TaskHolds(cfg, t, task.(phase := Resumed(cfg, task.call, task.now, f, task.phase.reply, at, id)))
  {}

  lemma InsertResumes(cfg: Config, t: Table, task: Task, at: int, id: Text)
    requires TableSound(t) && TaskHolds(cfg, t, task) && task.phase.Answered? && task.phase.frame.Inserting?
    ensures var f := task.phase.frame;
            TaskHolds(cfg, t, task.(phase := Resumed(cfg, task.call, task.now, f, task.phase.reply, at, id)))
  {}

  lemma UpdateResumes(cfg: Config, t: Table, task: Task, at: int, id: Text)
    requires TaskHolds(cfg, t, task) && task.phase.Answered? && !task.call.CreateCall?
    requires task.phase.frame.Updating? || task.phase.frame.Rechecking?
    ensures var f := task.phase.frame;
            TaskHolds(cfg, t, task.(phase := Resumed(cfg, task.call, task.now, f, task.phase.reply, at, id)))
  {}

  lemma ExpiryResumes(cfg: Config, t: Table, task: Task, at: int, id: Text)
    requires TaskHolds(cfg, t, task) && task.phase.Answered? && !task.call.CreateCall?
    requires task.phase.frame.Expiring? || task.phase.frame.Rereading? || task.phase.frame.Sweeping?
    ensures var f := task.phase.frame;
            TaskHolds(cfg, t, task.(phase := Resumed(cfg, task.call, task.now, f, task.phase.reply, at, id)))
  {}

  lemma ReadingResumes(cfg: Config, t: Table, task: Task, at: int, id: Text)
    requires TaskHolds(cfg, t, task) && task.phase.Answered? && task.phase.frame.Reading?
    ensures var f := task.phase.frame;
            TaskHolds(cfg, t, task.(phase := Resumed(cfg, task.call, task.now, f, task.phase.reply, at, id)))
  {
    var reply := task.phase.reply;
    if reply.Row? && reply.row.Some? {
      if task.call.DecideCall? {
        DecideReadHolds(cfg, t, task.call, task.now, reply.row.value);
      } else {
        ConsumeReadHolds(cfg, t, task.call, task.now, reply.row.value);
      }
    }
  }

  /** Going on with an answer leaves the call with true local facts or a truthful result. */
  lemma ResumedHolds(cfg: Config, t: Table, task: Task, at: int, id: Text)
    requires TableSound(t) && TaskHolds(cfg, t, task) && task.phase.Answered?
    ensures var f := task.phase.frame;
            TaskHolds(cfg, t, task.(phase := Resumed(cfg, task.call, task.now, f, task.phase.reply, at, id)))
  {
    var f := task.phase.frame;
    if f.Finding? || f.Refinding? {
      LookupResumes(cfg, t, task, at, id);
    } else if f.Inserting? {
      InsertResumes(cfg, t, task, at, id);
    } else if f.Reading? {
      ReadingResumes(cfg, t, task, at, id);
    } else if f.Updating? || f.Rechecking? {
      UpdateResumes(cfg, t, task, at, id);
    } else {
      ExpiryResumes(cfg, t, task, at, id);
    }
  }
}
