/** What holds in every interleaving of approval calls. */
module ApprovalSafety {
  import opened Texts
  import opened Bindings
  import opened ApprovalRecords
  import opened ApprovalProtocol

  // ---------------------------------------------------------------- audit accounting

  function Tally(es: seq<Entry>, k: EventKind, id: Text): nat {
    if es == [] then 0
    else (if es[0].kind == k && es[0].record.draft.id == id then 1 else 0) + Tally(es[1..], k, id)
  }

  /** The number of transitions of a kind that a record has made. */
  function Made(t: Table, k: EventKind, id: Text): nat {
    if id !in t then 0
    else match k
      case ApprovalCreated => 1
      case ApprovalApproved => if t[id].status == Approved then 1 else 0
      case ApprovalDenied => if t[id].status == Denied then 1 else 0
      case ApprovalExpired => if t[id].status == Expired then 1 else 0
  }

  function Owes(t: Task, k: EventKind, id: Text): nat {
    Tally(Owed(t), k, id)
  }

  /** The calls that still have to record an event. */
  function Owing(tasks: map<nat, Task>, k: EventKind, id: Text): set<nat> {
    set c | c in tasks && Owes(tasks[c], k, id) > 0
  }

  /** Events recorded, events owed by calls in flight, and events lost with an answer. */
  function Balance(s: State, k: EventKind, id: Text): nat {
    Tally(s.log, k, id) + |Owing(s.tasks, k, id)| + Tally(s.lost, k, id)
  }

  lemma {:induction false} TallyConcat(a: seq<Entry>, b: seq<Entry>, k: EventKind, id: Text)
    ensures Tally(a + b, k, id) == Tally(a, k, id) + Tally(b, k, id)
  {
    if a == [] {
      assert a + b == b;
    } else {
      assert (a + b)[1..] == a[1..] + b;
      TallyConcat(a[1..], b, k, id);
    }
  }

  lemma OwingIsOthersAndMaybeOne(tasks: map<nat, Task>, c: nat, t: Task, k: EventKind, id: Text)
    ensures Owing(tasks[c := t], k, id)
         == (Owing(tasks, k, id) - {c}) + (if Owes(t, k, id) > 0 then {c} else {})
  {}

  /** Replacing one call changes the set of owing calls by that call only. */
  lemma OwingUpdate(tasks: map<nat, Task>, c: nat, t: Task, k: EventKind, id: Text)
    requires Owes(t, k, id) <= 1 && (c in tasks ==> Owes(tasks[c], k, id) <= 1)
    ensures |Owing(tasks[c := t], k, id)|
         == |Owing(tasks, k, id)| - (if c in tasks then Owes(tasks[c], k, id) else 0) + Owes(t, k, id)
  {
    OwingIsOthersAndMaybeOne(tasks, c, t, k, id);
    assert c in Owing(tasks, k, id) <==> c in tasks && Owes(tasks[c], k, id) > 0;
  }

  lemma {:induction false} SweepTally(rows: seq<Record>, k: EventKind, id: Text)
    requires forall i, j | 0 <= i < j < |rows| :: rows[i].draft.id != rows[j].draft.id
    ensures Tally(ExpiredEntries(rows), k, id)
         == if k == ApprovalExpired && (exists i | 0 <= i < |rows| :: rows[i].draft.id == id) then 1 else 0
  {
    if rows != [] {
      SweepTally(rows[1..], k, id);
      assert ExpiredEntries(rows)[1..] == ExpiredEntries(rows[1..]);
      if exists i | 0 <= i < |rows[1..]| :: rows[1..][i].draft.id == id {
        var i :| 0 <= i < |rows[1..]| && rows[1..][i].draft.id == id;
        assert rows[i + 1].draft.id == id;
      }
    }
  }

  lemma {:induction false} TallyOfOne(e: Entry, k: EventKind, id: Text)
    ensures Tally([e], k, id) == if e.kind == k && e.record.draft.id == id then 1 else 0
  {}

  lemma OwesAtMostOne(cfg: Config, t: Table, task: Task, k: EventKind, id: Text)
    requires TaskHolds(cfg, t, task)
    ensures Owes(task, k, id) <= 1
  {
    if task.phase.Answered? && task.phase.frame.Sweeping? && task.phase.reply.Rows? {
      SweepTally(task.phase.reply.rows, k, id);
    } else {
      assert |Owed(task)| <= 1;
      if Owed(task) != [] {
        TallyOfOne(Owed(task)[0], k, id);
      }
    }
  }

  /** A repository operation makes exactly the transitions whose events its call then owes. */
  lemma ExecBalances(cfg: Config, t: Table, call: Call, now: int, f: Frame, pick: seq<Text>,
                     k: EventKind, id: Text)
    requires TableSound(t) && ValidCall(call) && FrameHolds(cfg, t, call, now, f)
    requires Legal(t, cfg.backend, QueryOf(call, now, f), pick)
    ensures var (u, reply) := Exec(t, cfg.backend, QueryOf(call, now, f), pick);
            Made(u, k, id) == Made(t, k, id) + Tally(Emitted(call, now, f, reply), k, id)
  {
    if f.Sweeping? {
      SweepBalances(cfg, t, now, pick, k, id);
    } else if f.Updating? {
      UpdateBalances(cfg, t, call, now, f, k, id);
    } else if f.Inserting? {
      InsertBalances(cfg, t, call, now, f, k, id);
    } else if f.Expiring? {
      ExpiryBalances(cfg, t, call, now, f, k, id);
    }
  }

  lemma InsertBalances(cfg: Config, t: Table, call: Call, now: int, f: Frame, k: EventKind, id: Text)
    requires Suits(call, f) && f.Inserting?
    ensures var (u, reply) := Exec(t, cfg.backend, QueryOf(call, now, f), []);
            Made(u, k, id) == Made(t, k, id) + Tally(Emitted(call, now, f, reply), k, id)
  {
    TallyOfOne(Entry(ApprovalCreated, PendingRecord(f.draft)), k, id);
  }

  lemma ExpiryBalances(cfg: Config, t: Table, call: Call, now: int, f: Frame, k: EventKind, id: Text)
    requires Suits(call, f) && f.Expiring?
    ensures var (u, reply) := Exec(t, cfg.backend, QueryOf(call, now, f), []);
            Made(u, k, id) == Made(t, k, id) + Tally(Emitted(call, now, f, reply), k, id)
  {
    TallyOfOne(Entry(ApprovalExpired, ExpiredRecord(f.current, now)), k, id);
  }

  lemma UpdateBalances(cfg: Config, t: Table, call: Call, now: int, f: Frame, k: EventKind, id: Text)
    requires TableSound(t) && ValidCall(call) && Suits(call, f) && f.Updating?
    ensures var (u, reply) := Exec(t, cfg.backend, QueryOf(call, now, f), []);
            Made(u, k, id) == Made(t, k, id) + Tally(Emitted(call, now, f, reply), k, id)
  {
    var (u, reply) := Exec(t, cfg.backend, QueryOf(call, now, f), []);
    if call.DecideCall? && reply.row.Some? {
      TallyOfOne(Emitted(call, now, f, reply)[0], k, id);
    }
  }

  lemma SweepBalances(cfg: Config, t: Table, now: int, pick: seq<Text>, k: EventKind, id: Text)
    requires TableSound(t) && Legal(t, cfg.backend, ExpireStale(now), pick)
    ensures var (u, reply) := Exec(t, cfg.backend, ExpireStale(now), pick);
            Made(u, k, id) == Made(t, k, id) + Tally(ExpiredEntries(reply.rows), k, id)
  {
    ListsItsElements(pick, Stale(t, now));
    SweepMakes(t, now, k, id);
    SweepEmits(t, now, pick, k, id);
  }

  lemma SweepMakes(t: Table, now: int, k: EventKind, id: Text)
    ensures Made(ExpireSet(t, Stale(t, now), now), k, id)
         == Made(t, k, id) + if k == ApprovalExpired && id in Stale(t, now) then 1 else 0
  {}

  lemma SweepEmits(t: Table, now: int, pick: seq<Text>, k: EventKind, id: Text)
    requires TableSound(t) && Lists(pick, Stale(t, now))
    requires forall i | 0 <= i < |pick| :: pick[i] in t
    ensures Tally(ExpiredEntries(ExpiredRows(t, pick, now)), k, id)
         == if k == ApprovalExpired && id in Stale(t, now) then 1 else 0
  {
    ListsItsElements(pick, Stale(t, now));
    var rows := ExpiredRows(t, pick, now);
    assert forall i | 0 <= i < |pick| :: rows[i].draft.id == pick[i];
    SweepTally(rows, k, id);
    if id in Stale(t, now) {
      assert id in pick;
      var i :| 0 <= i < |pick| && pick[i] == id;
      assert rows[i].draft.id == id;
    }
  }

  // ---------------------------------------------------------------- the invariant

  /** The call has won, or is about to win, the consumption of its approval. */
  ghost predicate Wins(t: Task) {
    && t.call.ConsumeCall?
    && match t.phase
       case Answered(Updating(_), Row(Some(_))) => true
       case Finished(Consumed(_)) => true
       case _ => false
  }

  ghost predicate OneWinner(s: State) {
    forall c, d | c in s.tasks && d in s.tasks && Wins(s.tasks[c]) && Wins(s.tasks[d])
                  && s.tasks[c].call.id == s.tasks[d].call.id :: c == d
  }

  /** Some create call made this draft from its own context. */
  ghost predicate MadeBy(cfg: Config, tasks: map<nat, Task>, draft: NewApproval, c: nat) {
    c in tasks && ValidCall(tasks[c].call) && DraftOf(cfg, tasks[c].call, draft)
  }

  ghost predicate Authored(cfg: Config, s: State) {
    forall id | id in s.table :: exists c :: MadeBy(cfg, s.tasks, s.table[id].draft, c)
  }

  ghost predicate PendingUnique(t: Table) {
    forall a, b | a in t && b in t && t[a].status == Pending && t[b].status == Pending
                  && SameIndexKey(t[a].draft.binding, t[b].draft.binding) :: a == b
  }

  ghost predicate Audited(s: State) {
    forall k, id :: Balance(s, k, id) == Made(s.table, k, id)
  }

  ghost predicate TasksHold(cfg: Config, s: State) {
    forall c | c in s.tasks :: TaskHolds(cfg, s.table, s.tasks[c])
  }

  ghost predicate Inv(cfg: Config, s: State) {
    && TableSound(s.table)
    && TasksHold(cfg, s)
    && OneWinner(s)
    && Authored(cfg, s)
    && (cfg.backend == Postgres ==> PendingUnique(s.table))
    && Audited(s)
  }

  lemma InitialHolds(cfg: Config)
    ensures Inv(cfg, INITIAL)
  {
    assert forall k, id :: Owing(INITIAL.tasks, k, id) == {};
  }

  // ---------------------------------------------------------------- every step keeps it

  lemma StepEvolves(cfg: Config, s: State, a: Action)
    requires Inv(cfg, s) && Enabled(cfg, s, a)
    ensures TableEvolves(s.table, Apply(cfg, s, a).table) && TableSound(Apply(cfg, s, a).table)
  {
    if a.Ask? {
      var t := s.tasks[a.c];
      ExecEvolves(cfg, s.table, t.call, t.now, t.phase.frame, a.pick);
    }
  }

  lemma BegunTaskHolds(cfg: Config, t: Table, call: Call, now: int)
    requires ValidCall(call)
    ensures TaskHolds(cfg, t, Begun(cfg, call, now))
  {}

  lemma AskedTaskHolds(cfg: Config, t: Table, task: Task, pick: seq<Text>)
    requires TableSound(t) && TaskHolds(cfg, t, task) && task.phase.Asked?
    requires Legal(t, cfg.backend, QueryOf(task.call, task.now, task.phase.frame), pick)
    ensures var f := task.phase.frame;
            var (u, reply) := Exec(t, cfg.backend, QueryOf(task.call, task.now, f), pick);
            TaskHolds(cfg, u, task.(phase := Answered(f, reply)))
  {
    ExecAnswers(cfg, t, task.call, task.now, task.phase.frame, pick);
  }

  lemma FailedTaskHolds(cfg: Config, t: Table, task: Task)
    requires TaskHolds(cfg, t, task) && !task.phase.Finished?
    ensures TaskHolds(cfg, t, task.(phase := Answered(task.phase.frame, Threw)))
  {}

  /** The call that a step moves holds its facts afterwards. */
  lemma MovedTaskHolds(cfg: Config, s: State, a: Action)
    requires TableSound(s.table) && TasksHold(cfg, s) && Enabled(cfg, s, a)
    ensures var u := Apply(cfg, s, a); a.c in u.tasks && TaskHolds(cfg, u.table, u.tasks[a.c])
  {
    match a
    case Start(_, call, now) => BegunTaskHolds(cfg, s.table, call, now);
    case Ask(c, pick) => AskedTaskHolds(cfg, s.table, s.tasks[c], pick);
    case Fail(c) => FailedTaskHolds(cfg, s.table, s.tasks[c]);
    case Lose(c) => FailedTaskHolds(cfg, s.table, s.tasks[c]);
    case Resume(c, at, id) => ResumedHolds(cfg, s.table, s.tasks[c], at, id);
  }

  lemma StepKeepsTasks(cfg: Config, s: State, a: Action)
    requires Inv(cfg, s) && Enabled(cfg, s, a)
    ensures TasksHold(cfg, Apply(cfg, s, a))
  {
    var u := Apply(cfg, s, a);
    StepEvolves(cfg, s, a);
    MovedTaskHolds(cfg, s, a);
    forall c | c in u.tasks && c != a.c ensures TaskHolds(cfg, u.table, u.tasks[c]) {
      assert c in s.tasks && u.tasks[c] == s.tasks[c];
      TaskHoldsIsStable(cfg, s.table, u.table, s.tasks[c]);
    }
  }

  lemma WinnerHasConsumed(cfg: Config, s: State, c: nat)
    requires Inv(cfg, s) && c in s.tasks && Wins(s.tasks[c])
    ensures var id := s.tasks[c].call.id; id in s.table && s.table[id].consumedAt.Some?
  {
    assert TaskHolds(cfg, s.table, s.tasks[c]);
  }

  /** The call moved by the step wins now and did not before. */
  ghost predicate StartsToWin(cfg: Config, s: State, a: Action)
    requires Enabled(cfg, s, a)
  {
    var u := Apply(cfg, s, a);
    a.c in u.tasks && Wins(u.tasks[a.c]) && !(a.c in s.tasks && Wins(s.tasks[a.c]))
  }

  /** A call that starts to win found its approval unconsumed. */
  lemma NewWinnerIsFirst(cfg: Config, s: State, a: Action)
    requires Enabled(cfg, s, a) && StartsToWin(cfg, s, a)
    ensures a.Ask? && a.c in s.tasks && s.tasks[a.c].call.ConsumeCall?
    ensures var id := s.tasks[a.c].call.id; id in s.table && s.table[id].consumedAt.None?
  {}

  lemma TasksOfStep(cfg: Config, s: State, a: Action)
    requires Enabled(cfg, s, a)
    ensures var u := Apply(cfg, s, a);
            a.c in u.tasks && u.tasks == s.tasks[a.c := u.tasks[a.c]]
    ensures a.c in s.tasks ==>
              && Apply(cfg, s, a).tasks[a.c].call == s.tasks[a.c].call
              && Apply(cfg, s, a).tasks[a.c].now == s.tasks[a.c].now
  {}

  lemma StepKeepsOneWinner(cfg: Config, s: State, a: Action)
    requires Inv(cfg, s) && Enabled(cfg, s, a)
    ensures OneWinner(Apply(cfg, s, a))
  {
    TasksOfStep(cfg, s, a);
    var u := Apply(cfg, s, a);
    if StartsToWin(cfg, s, a) {
      NewWinnerIsFirst(cfg, s, a);
      forall d | d in s.tasks && Wins(s.tasks[d]) ensures s.tasks[d].call.id != s.tasks[a.c].call.id {
        WinnerHasConsumed(cfg, s, d);
      }
    }
    OneWinnerAfterUpdate(s, u, a.c);
  }

  lemma OneWinnerAfterUpdate(s: State, u: State, c: nat)
    requires OneWinner(s) && c in u.tasks && u.tasks == s.tasks[c := u.tasks[c]]
    requires c in s.tasks ==> s.tasks[c].call == u.tasks[c].call
    requires Wins(u.tasks[c]) ==>
               || (c in s.tasks && Wins(s.tasks[c]))
               || forall d | d in s.tasks && Wins(s.tasks[d]) :: s.tasks[d].call.id != u.tasks[c].call.id
    ensures OneWinner(u)
  {}

  /** Only an insertion adds a row, and it adds the inserted draft. */
  lemma ExecAdds(cfg: Config, t: Table, q: Query, pick: seq<Text>, id: Text)
    requires Legal(t, cfg.backend, q, pick)
    requires id in Exec(t, cfg.backend, q, pick).0 && id !in t
    ensures q.Insert? && Insertable(t, cfg.backend, q.draft)
    ensures Exec(t, cfg.backend, q, pick).0 == t[q.draft.id := PendingRecord(q.draft)]
    ensures id == q.draft.id
  {}

  lemma StepAdds(cfg: Config, s: State, a: Action, id: Text)
    requires Inv(cfg, s) && Enabled(cfg, s, a) && id in Apply(cfg, s, a).table && id !in s.table
    ensures a.Ask? && s.tasks[a.c].phase.frame.Inserting?
    ensures var draft := s.tasks[a.c].phase.frame.draft;
            && Insertable(s.table, cfg.backend, draft) && id == draft.id
            && Apply(cfg, s, a).table == s.table[id := PendingRecord(draft)]
  {
    var t := s.tasks[a.c];
    ExecAdds(cfg, s.table, QueryOf(t.call, t.now, t.phase.frame), a.pick, id);
  }

  lemma StepKeepsAuthors(cfg: Config, s: State, a: Action)
    requires Inv(cfg, s) && Enabled(cfg, s, a)
    ensures Authored(cfg, Apply(cfg, s, a))
  {
    var u := Apply(cfg, s, a);
    StepEvolves(cfg, s, a);
    TasksOfStep(cfg, s, a);
    forall id | id in u.table ensures exists c :: MadeBy(cfg, u.tasks, u.table[id].draft, c) {
      if id in s.table {
        var c :| MadeBy(cfg, s.tasks, s.table[id].draft, c);
        AuthorStays(cfg, s.tasks, u.tasks, s.table[id].draft, c);
      } else {
        NewRowHasAuthor(cfg, s, a, id);
      }
    }
  }

  lemma AuthorStays(cfg: Config, before: map<nat, Task>, after: map<nat, Task>, draft: NewApproval, c: nat)
    requires MadeBy(cfg, before, draft, c) && c in after && after[c].call == before[c].call
    ensures MadeBy(cfg, after, draft, c)
  {}

  lemma NewRowHasAuthor(cfg: Config, s: State, a: Action, id: Text)
    requires Inv(cfg, s) && Enabled(cfg, s, a) && id in Apply(cfg, s, a).table && id !in s.table
    ensures var u := Apply(cfg, s, a); MadeBy(cfg, u.tasks, u.table[id].draft, a.c)
  {
    StepAdds(cfg, s, a, id);
    TasksOfStep(cfg, s, a);
    assert TaskHolds(cfg, s.table, s.tasks[a.c]);
  }

  lemma PendingBefore(t: Table, u: Table, id: Text)
    requires TableEvolves(t, u) && id in t && u[id].status == Pending
    ensures t[id].status == Pending && u[id].draft == t[id].draft
  {
    assert Evolves(t[id], u[id]);
  }

  lemma StepKeepsPendingUnique(cfg: Config, s: State, a: Action)
    requires Inv(cfg, s) && Enabled(cfg, s, a) && cfg.backend == Postgres
    ensures PendingUnique(Apply(cfg, s, a).table)
  {
    var u := Apply(cfg, s, a).table;
    forall x, y | x in u && y in u && u[x].status == Pending && u[y].status == Pending
                  && SameIndexKey(u[x].draft.binding, u[y].draft.binding)
      ensures x == y
    {
      PendingRowsMeet(cfg, s, a, x, y);
    }
  }

  lemma PendingRowsMeet(cfg: Config, s: State, a: Action, x: Text, y: Text)
    requires Inv(cfg, s) && Enabled(cfg, s, a) && cfg.backend == Postgres
    requires var u := Apply(cfg, s, a).table;
             && x in u && y in u && u[x].status == Pending && u[y].status == Pending
             && SameIndexKey(u[x].draft.binding, u[y].draft.binding)
    ensures x == y
  {
    var u := Apply(cfg, s, a).table;
    StepEvolves(cfg, s, a);
    if x in s.table {
      PendingBefore(s.table, u, x);
    } else {
      StepAdds(cfg, s, a, x);
    }
    if y in s.table {
      PendingBefore(s.table, u, y);
    } else {
      StepAdds(cfg, s, a, y);
    }
  }

  lemma MovedTaskOwes(cfg: Config, s: State, a: Action, k: EventKind, id: Text)
    requires Inv(cfg, s) && Enabled(cfg, s, a)
    ensures var u := Apply(cfg, s, a);
            && a.c in u.tasks && u.tasks == s.tasks[a.c := u.tasks[a.c]]
            && |Owing(u.tasks, k, id)| == |Owing(s.tasks, k, id)|
                 - (if a.c in s.tasks then Owes(s.tasks[a.c], k, id) else 0) + Owes(u.tasks[a.c], k, id)
  {
    var u := Apply(cfg, s, a);
    MovedTaskHolds(cfg, s, a);
    OwesAtMostOne(cfg, u.table, u.tasks[a.c], k, id);
    if a.c in s.tasks {
      assert TaskHolds(cfg, s.table, s.tasks[a.c]);
      OwesAtMostOne(cfg, s.table, s.tasks[a.c], k, id);
    }
    OwingUpdate(s.tasks, a.c, u.tasks[a.c], k, id);
  }

  lemma AskKeepsBalance(cfg: Config, s: State, c: nat, pick: seq<Text>, k: EventKind, id: Text)
    requires Inv(cfg, s) && Enabled(cfg, s, Ask(c, pick))
    ensures var u := Apply(cfg, s, Ask(c, pick)); Balance(u, k, id) == Made(u.table, k, id)
  {
    MovedTaskOwes(cfg, s, Ask(c, pick), k, id);
    var t := s.tasks[c];
    assert TaskHolds(cfg, s.table, t);
    ExecBalances(cfg, s.table, t.call, t.now, t.phase.frame, pick, k, id);
    assert Balance(s, k, id) == Made(s.table, k, id);
  }

  /** Moving the owed events of a call to the log or to the lost ones keeps the sum. */
  lemma SettledBalance(s: State, u: State, c: nat, k: EventKind, id: Text)
    requires c in s.tasks && u.table == s.table
    requires || (u.log == s.log + Owed(s.tasks[c]) && u.lost == s.lost)
             || (u.log == s.log && u.lost == s.lost + Owed(s.tasks[c]))
    requires |Owing(u.tasks, k, id)| == |Owing(s.tasks, k, id)| - Owes(s.tasks[c], k, id)
    ensures Balance(u, k, id) == Balance(s, k, id) && Made(u.table, k, id) == Made(s.table, k, id)
  {
    TallyConcat(s.log, Owed(s.tasks[c]), k, id);
    TallyConcat(s.lost, Owed(s.tasks[c]), k, id);
  }

  /** After going on, or after losing its answer, a call owes nothing. */
  lemma SettledOwesNothing(cfg: Config, s: State, a: Action)
    requires Enabled(cfg, s, a) && (a.Lose? || a.Resume?)
    ensures Owed(Apply(cfg, s, a).tasks[a.c]) == []
  {
    if a.Resume? {
      var t := s.tasks[a.c];
      ResumedIsNotAnswered(cfg, t.call, t.now, t.phase.frame, t.phase.reply, a.at, a.id);
    }
  }

  lemma SettleKeepsBalance(cfg: Config, s: State, a: Action, k: EventKind, id: Text)
    requires Inv(cfg, s) && Enabled(cfg, s, a) && (a.Lose? || a.Resume?)
    ensures var u := Apply(cfg, s, a); Balance(u, k, id) == Made(u.table, k, id)
  {
    MovedTaskOwes(cfg, s, a, k, id);
    SettledOwesNothing(cfg, s, a);
    SettledBalance(s, Apply(cfg, s, a), a.c, k, id);
    assert Balance(s, k, id) == Made(s.table, k, id);
  }

  lemma IdleKeepsBalance(cfg: Config, s: State, a: Action, k: EventKind, id: Text)
    requires Inv(cfg, s) && Enabled(cfg, s, a) && (a.Start? || a.Fail?)
    ensures var u := Apply(cfg, s, a); Balance(u, k, id) == Made(u.table, k, id)
  {
    MovedTaskOwes(cfg, s, a, k, id);
    assert Owed(Apply(cfg, s, a).tasks[a.c]) == [];
    assert Balance(s, k, id) == Made(s.table, k, id);
  }

  lemma StepKeepsBalance(cfg: Config, s: State, a: Action, k: EventKind, id: Text)
    requires Inv(cfg, s) && Enabled(cfg, s, a)
    ensures var u := Apply(cfg, s, a); Balance(u, k, id) == Made(u.table, k, id)
  {
    match a
    case Ask(c, pick) => AskKeepsBalance(cfg, s, c, pick, k, id);
    case Lose(_) => SettleKeepsBalance(cfg, s, a, k, id);
    case Resume(_, _, _) => SettleKeepsBalance(cfg, s, a, k, id);
    case Start(_, _, _) => IdleKeepsBalance(cfg, s, a, k, id);
    case Fail(_) => IdleKeepsBalance(cfg, s, a, k, id);
  }

  /** Every step of every call keeps the invariant. */
  lemma StepKeepsInv(cfg: Config, s: State, a: Action)
    requires Inv(cfg, s) && Enabled(cfg, s, a)
    ensures Inv(cfg, Apply(cfg, s, a))
  {
    StepEvolves(cfg, s, a);
    StepKeepsTasks(cfg, s, a);
    StepKeepsOneWinner(cfg, s, a);
    StepKeepsAuthors(cfg, s, a);
    if cfg.backend == Postgres {
      StepKeepsPendingUnique(cfg, s, a);
    }
    forall k, id ensures Balance(Apply(cfg, s, a), k, id) == Made(Apply(cfg, s, a).table, k, id) {
      StepKeepsBalance(cfg, s, a, k, id);
    }
  }

  // ---------------------------------------------------------------- runs

  /** States visited from the initial one, and the actions between them. */
  ghost predicate IsRun(cfg: Config, states: seq<State>, actions: seq<Action>) {
    && |states| == |actions| + 1
    && states[0] == INITIAL
    && forall i | 0 <= i < |actions| :: StepAt(cfg, states, actions, i)
  }

  ghost predicate StepAt(cfg: Config, states: seq<State>, actions: seq<Action>, i: nat)
    requires |states| == |actions| + 1 && i < |actions|
  {
    IsStep(cfg, states[i], actions[i], states[i + 1])
  }

  ghost predicate IsStep(cfg: Config, s: State, a: Action, u: State) {
    Enabled(cfg, s, a) && u == Apply(cfg, s, a)
  }

  lemma {:induction false} RunKeepsInv(cfg: Config, states: seq<State>, actions: seq<Action>, n: nat)
    requires IsRun(cfg, states, actions) && n < |states|
    ensures Inv(cfg, states[n])
  {
    if n == 0 {
      InitialHolds(cfg);
    } else {
      RunKeepsInv(cfg, states, actions, n - 1);
      assert StepAt(cfg, states, actions, n - 1);
      StepKeepsInv(cfg, states[n - 1], actions[n - 1]);
    }
  }

  /** Along a run, records only develop, and a finished call keeps its result. */
  lemma {:induction false} RunEvolves(cfg: Config, states: seq<State>, actions: seq<Action>, m: nat, n: nat)
    requires IsRun(cfg, states, actions) && m <= n < |states|
    ensures TableEvolves(states[m].table, states[n].table)
    ensures forall c | c in states[m].tasks ::
              && c in states[n].tasks && states[n].tasks[c].call == states[m].tasks[c].call
              && states[n].tasks[c].now == states[m].tasks[c].now
              && (states[m].tasks[c].phase.Finished? ==> states[n].tasks[c] == states[m].tasks[c])
    decreases n - m
  {
    if m < n {
      RunEvolves(cfg, states, actions, m, n - 1);
      StepOfRunEvolves(cfg, states, actions, n - 1);
      TableEvolvesTransitive(states[m].table, states[n - 1].table, states[n].table);
    }
  }

  lemma StepOfRunEvolves(cfg: Config, states: seq<State>, actions: seq<Action>, i: nat)
    requires IsRun(cfg, states, actions) && i < |actions|
    ensures TableEvolves(states[i].table, states[i + 1].table)
    ensures forall c | c in states[i].tasks ::
              && c in states[i + 1].tasks && states[i + 1].tasks[c].call == states[i].tasks[c].call
              && states[i + 1].tasks[c].now == states[i].tasks[c].now
              && (states[i].tasks[c].phase.Finished? ==> states[i + 1].tasks[c] == states[i].tasks[c])
  {
    RunKeepsInv(cfg, states, actions, i);
    assert StepAt(cfg, states, actions, i);
    StepEvolves(cfg, states[i], actions[i]);
    TasksOfStep(cfg, states[i], actions[i]);
  }
}
