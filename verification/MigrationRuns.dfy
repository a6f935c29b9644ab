/** Any number of migration runs against one database, in any interleaving, each of which may
    fail or stop at any point. */
module MigrationRuns {
  import opened Wrappers
  import opened Texts
  import opened Migrations

  /** Where a run stands. `seen` are the ids it read, `rows` how many those were. */
  datatype Phase =
    | Waiting
    | Locked
    | Looping(i: nat, seen: seq<Text>, applied: seq<Text>, skipped: seq<Text>)
    | InTransaction(i: nat, seen: seq<Text>, applied: seq<Text>, skipped: seq<Text>)
    | Succeeded(applied: seq<Text>, skipped: seq<Text>)
    | Stopped

  datatype Runner = Runner(files: seq<MigrationFile>, phase: Phase)

  /** `applied` are the rows of `schema_migrations` in order of insertion, `schema` the
      scripts whose effects the schema carries, in order of execution. */
  datatype State = State(applied: seq<Text>, schema: seq<Text>, lock: Option<nat>, runners: seq<Runner>)

  datatype Action =
    | Start(files: seq<MigrationFile>)
    | Acquire(k: nat)
    | ReadApplied(k: nat)
    | Next(k: nat)
    | Commit(k: nat)
    | CommitUnseen(k: nat)
    | Stop(k: nat)

  function Ids(files: seq<MigrationFile>): (r: seq<Text>)
    ensures |r| == |files| && forall i | 0 <= i < |files| :: r[i] == files[i].id
  {
    seq(|files|, i requires 0 <= i < |files| => files[i].id)
  }

  function Scripts(files: seq<MigrationFile>): (r: seq<Text>)
    ensures |r| == |files| && forall i | 0 <= i < |files| :: r[i] == files[i].sql
  {
    seq(|files|, i requires 0 <= i < |files| => files[i].sql)
  }

  predicate Holding(p: Phase) {
    p.Locked? || p.Looping? || p.InTransaction?
  }

  predicate Live(p: Phase) {
    p.Waiting? || Holding(p)
  }

  /** The primary key lets a row be inserted only once. */
  ghost predicate CanCommit(s: State, k: nat)
    requires k < |s.runners|
  {
    var r := s.runners[k];
    r.phase.InTransaction? && r.phase.i < |r.files| && r.files[r.phase.i].id !in s.applied
  }

  ghost predicate Enabled(s: State, a: Action) {
    match a
    case Start(_) => true
    case Acquire(k) => k < |s.runners| && s.runners[k].phase.Waiting? && s.lock.None?
    case ReadApplied(k) => k < |s.runners| && s.runners[k].phase.Locked?
    case Next(k) => k < |s.runners| && s.runners[k].phase.Looping? && s.runners[k].phase.i <= |s.runners[k].files|
    case Commit(k) => k < |s.runners| && CanCommit(s, k)
    case CommitUnseen(k) => k < |s.runners| && CanCommit(s, k)
    case Stop(k) => k < |s.runners| && Live(s.runners[k].phase)
  }

  function With(s: State, k: nat, p: Phase): State
    requires k < |s.runners|
  {
    s.(runners := s.runners[k := s.runners[k].(phase := p)])
  }

  function Released(s: State, k: nat): State {
    if s.lock == Some(k) then s.(lock := None) else s
  }

  function Committed(s: State, f: MigrationFile): State {
    s.(applied := s.applied + [f.id], schema := s.schema + [f.sql])
  }

  /** One turn of the loop up to the next query. */
  function Turn(s: State, k: nat): State
    requires k < |s.runners| && s.runners[k].phase.Looping? && s.runners[k].phase.i <= |s.runners[k].files|
  {
    var r, p := s.runners[k], s.runners[k].phase;
    if p.i == |r.files| then With(Released(s, k), k, Succeeded(p.applied, p.skipped))
    else if r.files[p.i].id in p.seen then
      With(s, k, Looping(p.i + 1, p.seen, p.applied, p.skipped + [r.files[p.i].id]))
    else With(s, k, InTransaction(p.i, p.seen, p.applied, p.skipped))
  }

  /** Stopping covers an error and the loss of the process: the open transaction, if any, is
      rolled back and the lock is free again. */
  ghost function Apply(s: State, a: Action): State
    requires Enabled(s, a)
  {
    match a
    case Start(files) => s.(runners := s.runners + [Runner(files, Waiting)])
    case Acquire(k) => With(s.(lock := Some(k)), k, Locked)
    case ReadApplied(k) => With(s, k, Looping(0, s.applied, [], []))
    case Next(k) => Turn(s, k)
    case Commit(k) =>
      var r, p := s.runners[k], s.runners[k].phase;
      With(Committed(s, r.files[p.i]), k,
           Looping(p.i + 1, p.seen, p.applied + [r.files[p.i].id], p.skipped))
    case CommitUnseen(k) =>
      var r, p := s.runners[k], s.runners[k].phase;
      With(Released(Committed(s, r.files[p.i]), k), k, Stopped)
    case Stop(k) => With(Released(s, k), k, Stopped)
  }

  // ---------------------------------------------------------------- the invariant

  function Least(a: nat, b: nat): nat {
    if a <= b then a else b
  }

  /** How far a run in its loop has come: it read the first |seen| migrations, and everything
      applied since is its own doing. */
  ghost predicate OnItsWay(master: seq<MigrationFile>, s: State, files: seq<MigrationFile>, p: Phase) {
    p.Looping? || p.InTransaction? ==>
      && p.i <= |files| && |p.seen| <= |s.applied| <= |master|
      && p.seen == Ids(master[..|p.seen|])
      && p.applied == Ids(master[|p.seen|..|s.applied|])
      && p.skipped == Ids(files[..Least(p.i, |p.seen|)])
      && (if p.i <= |p.seen| then |s.applied| == |p.seen| else |s.applied| == p.i)
      && (p.InTransaction? ==> p.i == |s.applied| < |files|)
  }

  /** A run that succeeded has found or applied each of its files, and they are in effect. */
  ghost predicate Accounted(s: State, r: Runner) {
    r.phase.Succeeded? ==>
      && |r.files| <= |s.applied|
      && r.phase.skipped + r.phase.applied == Ids(r.files)
  }

  ghost predicate RunnerOk(master: seq<MigrationFile>, s: State, k: nat)
    requires k < |s.runners|
  {
    var r := s.runners[k];
    && r.files <= master
    && (Holding(r.phase) <==> s.lock == Some(k))
    && OnItsWay(master, s, r.files, r.phase)
    && Accounted(s, r)
  }

  /** The migrations in effect are a prefix of the list, applied once each and in order. */
  ghost predicate PrefixApplied(master: seq<MigrationFile>, s: State) {
    && |s.applied| <= |master|
    && s.applied == Ids(master[..|s.applied|])
    && s.schema == Scripts(master[..|s.applied|])
  }

  ghost predicate Inv(master: seq<MigrationFile>, s: State) {
    && PrefixApplied(master, s)
    && (s.lock.Some? ==> s.lock.value < |s.runners|)
    && forall k | 0 <= k < |s.runners| :: RunnerOk(master, s, k)
  }

  ghost predicate DistinctIds(files: seq<MigrationFile>) {
    forall i, j | 0 <= i < j < |files| :: files[i].id != files[j].id
  }

  /** Files that pass the loader's check have distinct ids, and so have all their prefixes. */
  lemma NumberedIdsAreDistinct(files: seq<MigrationFile>)
    requires Numbered(files)
    ensures DistinctIds(files)
  {
    forall i, j | 0 <= i < j < |files| ensures files[i].id != files[j].id {
      assert NumberOf(files[i].id) == i + 1 && NumberOf(files[j].id) == j + 1;
    }
  }

  /** Each run starts from files that are an older or the present state of one list. */
  ghost predicate StartsFromPrefix(master: seq<MigrationFile>, a: Action) {
    a.Start? ==> a.files <= master
  }

  /** A file is among the first n migrations exactly when its index is below n. */
  lemma InPrefix(master: seq<MigrationFile>, n: nat, i: nat)
    requires DistinctIds(master) && n <= |master| && i < |master|
    ensures master[i].id in Ids(master[..n]) <==> i < n
  {
    if i < n {
      assert Ids(master[..n])[i] == master[i].id;
    }
  }

  // ---------------------------------------------------------------- every step keeps it

  /** A step of run k, while no other run holds the lock, leaves the other runs as they were. */
  lemma OthersStayOk(master: seq<MigrationFile>, s: State, u: State, k: nat)
    requires Inv(master, s) && k < |s.runners| == |u.runners|
    requires u.runners == s.runners[k := u.runners[k]] && |s.applied| <= |u.applied|
    requires s.lock == Some(k) || s.lock == None || s.applied == u.applied
    requires u.lock == s.lock || (s.lock in {None, Some(k)} && u.lock in {None, Some(k)})
    ensures forall j | 0 <= j < |u.runners| && j != k :: RunnerOk(master, u, j)
  {
    forall j | 0 <= j < |u.runners| && j != k ensures RunnerOk(master, u, j) {
      assert RunnerOk(master, s, j) && u.runners[j] == s.runners[j];
    }
  }

  lemma IdsGrow(files: seq<MigrationFile>, m: nat, n: nat)
    requires m <= n < |files|
    ensures Ids(files[m..n + 1]) == Ids(files[m..n]) + [files[n].id]
  {
    assert files[m..n + 1] == files[m..n] + [files[n]];
  }

  lemma PrefixGrows(master: seq<MigrationFile>, n: nat)
    requires n < |master|
    ensures Ids(master[..n + 1]) == Ids(master[..n]) + [master[n].id]
    ensures Scripts(master[..n + 1]) == Scripts(master[..n]) + [master[n].sql]
  {
    assert master[..n + 1] == master[..n] + [master[n]];
  }

  lemma StartKeepsInv(master: seq<MigrationFile>, s: State, files: seq<MigrationFile>)
    requires Inv(master, s) && files <= master
    ensures Inv(master, Apply(s, Start(files)))
  {
    var u := Apply(s, Start(files));
    forall j | 0 <= j < |u.runners| ensures RunnerOk(master, u, j) {
      if j < |s.runners| {
        assert RunnerOk(master, s, j) && u.runners[j] == s.runners[j];
      }
    }
  }

  lemma AcquireKeepsInv(master: seq<MigrationFile>, s: State, k: nat)
    requires Inv(master, s) && Enabled(s, Acquire(k))
    ensures Inv(master, Apply(s, Acquire(k)))
  {
    assert RunnerOk(master, s, k);
    OthersStayOk(master, s, Apply(s, Acquire(k)), k);
  }

  lemma ReadKeepsInv(master: seq<MigrationFile>, s: State, k: nat)
    requires Inv(master, s) && Enabled(s, ReadApplied(k))
    ensures Inv(master, Apply(s, ReadApplied(k)))
  {
    assert RunnerOk(master, s, k);
    OthersStayOk(master, s, Apply(s, ReadApplied(k)), k);
  }

  /** At the end of the loop the skipped and the applied ids are those of the files. */
  lemma LoopAddsUp(master: seq<MigrationFile>, s: State, files: seq<MigrationFile>, p: Phase)
    requires files <= master && p.Looping? && p.i == |files| && OnItsWay(master, s, files, p)
    ensures p.skipped + p.applied == Ids(files) && |files| <= |s.applied|
    ensures p.skipped == Ids(files[..Least(|files|, |p.seen|)])
    ensures p.applied == Ids(files[Least(|files|, |p.seen|)..])
  {
    var m := Least(|files|, |p.seen|);
    if p.i <= |p.seen| {
      assert files[..m] == files && files[m..] == [];
    } else {
      assert files == master[..p.i] && files[m..] == master[m..p.i];
      assert files == files[..m] + files[m..];
    }
  }

  lemma SkipKeepsWay(master: seq<MigrationFile>, s: State, files: seq<MigrationFile>, p: Phase)
    requires DistinctIds(master) && files <= master && p.Looping? && p.i < |files|
    requires OnItsWay(master, s, files, p) && files[p.i].id in p.seen
    ensures OnItsWay(master, s, files, Looping(p.i + 1, p.seen, p.applied, p.skipped + [files[p.i].id]))
  {
    InPrefix(master, |p.seen|, p.i);
    IdsGrow(files, 0, p.i);
    assert files[0..p.i] == files[..p.i] && files[0..p.i + 1] == files[..p.i + 1];
  }

  lemma BeginKeepsWay(master: seq<MigrationFile>, s: State, files: seq<MigrationFile>, p: Phase)
    requires DistinctIds(master) && files <= master && p.Looping? && p.i < |files|
    requires OnItsWay(master, s, files, p) && files[p.i].id !in p.seen
    ensures OnItsWay(master, s, files, InTransaction(p.i, p.seen, p.applied, p.skipped))
  {
    InPrefix(master, |p.seen|, p.i);
  }

  lemma NextKeepsInv(master: seq<MigrationFile>, s: State, k: nat)
    requires DistinctIds(master) && Inv(master, s) && Enabled(s, Next(k))
    ensures Inv(master, Turn(s, k))
  {
    assert RunnerOk(master, s, k);
    var r, p := s.runners[k], s.runners[k].phase;
    OthersStayOk(master, s, Turn(s, k), k);
    if p.i == |r.files| {
      LoopAddsUp(master, s, r.files, p);
    } else if r.files[p.i].id in p.seen {
      SkipKeepsWay(master, s, r.files, p);
    } else {
      BeginKeepsWay(master, s, r.files, p);
    }
  }

  lemma CommittedIsAPrefix(master: seq<MigrationFile>, s: State, files: seq<MigrationFile>, p: Phase)
    requires PrefixApplied(master, s) && files <= master && p.InTransaction? && OnItsWay(master, s, files, p)
    ensures PrefixApplied(master, Committed(s, files[p.i]))
    ensures OnItsWay(master, Committed(s, files[p.i]), files,
                     Looping(p.i + 1, p.seen, p.applied + [files[p.i].id], p.skipped))
  {
    PrefixGrows(master, p.i);
    IdsGrow(master, |p.seen|, p.i);
  }

  lemma CommitKeepsInv(master: seq<MigrationFile>, s: State, k: nat, seen: bool)
    requires Inv(master, s) && k < |s.runners| && CanCommit(s, k)
    ensures Inv(master, Apply(s, if seen then Commit(k) else CommitUnseen(k)))
  {
    assert RunnerOk(master, s, k);
    var r := s.runners[k];
    CommittedIsAPrefix(master, s, r.files, r.phase);
    OthersStayOk(master, s, Apply(s, if seen then Commit(k) else CommitUnseen(k)), k);
  }

  lemma StopKeepsInv(master: seq<MigrationFile>, s: State, k: nat)
    requires Inv(master, s) && Enabled(s, Stop(k))
    ensures Inv(master, Apply(s, Stop(k)))
  {
    assert RunnerOk(master, s, k);
    OthersStayOk(master, s, Apply(s, Stop(k)), k);
  }

  lemma StepKeepsInv(master: seq<MigrationFile>, s: State, a: Action)
    requires DistinctIds(master) && Inv(master, s) && Enabled(s, a) && StartsFromPrefix(master, a)
    ensures Inv(master, Apply(s, a))
  {
    match a
    case Start(files) => StartKeepsInv(master, s, files);
    case Acquire(k) => AcquireKeepsInv(master, s, k);
    case ReadApplied(k) => ReadKeepsInv(master, s, k);
    case Next(k) => NextKeepsInv(master, s, k);
    case Commit(k) => CommitKeepsInv(master, s, k, true);
    case CommitUnseen(k) => CommitKeepsInv(master, s, k, false);
    case Stop(k) => StopKeepsInv(master, s, k);
  }

  const FRESH: State := State([], [], None, [])

  ghost predicate IsStep(master: seq<MigrationFile>, s: State, a: Action, u: State) {
    Enabled(s, a) && StartsFromPrefix(master, a) && u == Apply(s, a)
  }

  ghost predicate IsRun(master: seq<MigrationFile>, states: seq<State>, actions: seq<Action>) {
    && |states| == |actions| + 1 && states[0] == FRESH
    && forall i | 0 <= i < |actions| :: StepAt(master, states, actions, i)
  }

  ghost predicate StepAt(master: seq<MigrationFile>, states: seq<State>, actions: seq<Action>, i: nat)
    requires |states| == |actions| + 1 && i < |actions|
  {
    IsStep(master, states[i], actions[i], states[i + 1])
  }

  lemma {:induction false} RunKeepsInv(master: seq<MigrationFile>, states: seq<State>, actions: seq<Action>, n: nat)
    requires DistinctIds(master) && IsRun(master, states, actions) && n < |states|
    ensures Inv(master, states[n])
  {
    if n > 0 {
      RunKeepsInv(master, states, actions, n - 1);
      assert StepAt(master, states, actions, n - 1);
      StepKeepsInv(master, states[n - 1], actions[n - 1]);
    }
  }

  // ---------------------------------------------------------------- promises

  /** However many runs failed, stopped or are still under way: what is in effect is a prefix of
      the list, each migration recorded and executed once and in order, and only one run is
      past the lock. */
  lemma AppliedOnceInOrder(master: seq<MigrationFile>, states: seq<State>, actions: seq<Action>, n: nat, j: nat, k: nat)
    requires DistinctIds(master) && IsRun(master, states, actions) && n < |states|
    ensures PrefixApplied(master, states[n])
    ensures (&& j < |states[n].runners| && Holding(states[n].runners[j].phase)
             && k < |states[n].runners| && Holding(states[n].runners[k].phase)) ==> j == k
  {
    RunKeepsInv(master, states, actions, n);
    if j < |states[n].runners| && k < |states[n].runners| {
      assert RunnerOk(master, states[n], j) && RunnerOk(master, states[n], k);
    }
  }

  lemma NothingIsUndone(s: State, a: Action)
    requires Enabled(s, a)
    ensures s.applied <= Apply(s, a).applied && s.schema <= Apply(s, a).schema
    ensures !a.Commit? && !a.CommitUnseen? ==> Apply(s, a).applied == s.applied && Apply(s, a).schema == s.schema
    ensures |s.runners| <= |Apply(s, a).runners|
    ensures forall k | 0 <= k < |s.runners| :: Apply(s, a).runners[k].files == s.runners[k].files
  {}

  lemma {:induction false} EffectsLast(
    master: seq<MigrationFile>, states: seq<State>, actions: seq<Action>, m: nat, n: nat)
    requires IsRun(master, states, actions) && m <= n < |states|
    ensures states[m].applied <= states[n].applied && states[m].schema <= states[n].schema
  {
    if m < n {
      EffectsLast(master, states, actions, m, n - 1);
      assert StepAt(master, states, actions, n - 1);
      NothingIsUndone(states[n - 1], actions[n - 1]);
    }
  }

  /** A run that succeeds has every one of its files in effect from then on, and reports each
      of them once, either as skipped or as applied. */
  lemma SuccessIsComplete(
    master: seq<MigrationFile>, states: seq<State>, actions: seq<Action>, m: nat, n: nat, k: nat)
    requires DistinctIds(master) && IsRun(master, states, actions) && m <= n < |states|
    requires k < |states[m].runners| && states[m].runners[k].phase.Succeeded?
    ensures var r := states[m].runners[k];
            && Ids(r.files) <= states[n].applied && Scripts(r.files) <= states[n].schema
            && r.phase.skipped + r.phase.applied == Ids(r.files)
  {
    RunKeepsInv(master, states, actions, m);
    EffectsLast(master, states, actions, m, n);
    assert RunnerOk(master, states[m], k);
    var r := states[m].runners[k];
    assert r.files == master[..|r.files|];
    assert Ids(r.files) <= Ids(master[..|states[m].applied|]);
    assert Scripts(r.files) <= Scripts(master[..|states[m].applied|]);
  }

  /** The run has not applied anything and is not about to. */
  ghost predicate AppliesNothing(r: Runner) {
    match r.phase
    case Looping(i, seen, applied, _) => |r.files| <= |seen| && applied == []
    case InTransaction(_, _, _, _) => false
    case Succeeded(applied, skipped) => applied == [] && skipped == Ids(r.files)
    case _ => true
  }

  /** A turn of the loop when every file had been recorded at the read. */
  lemma TurnAppliesNothing(master: seq<MigrationFile>, s: State, k: nat)
    requires DistinctIds(master) && Inv(master, s) && Enabled(s, Next(k)) && AppliesNothing(s.runners[k])
    ensures AppliesNothing(Turn(s, k).runners[k])
  {
    assert RunnerOk(master, s, k);
    var r, p := s.runners[k], s.runners[k].phase;
    if p.i == |r.files| {
      LoopAddsUp(master, s, r.files, p);
      assert r.files[..Least(|r.files|, |p.seen|)] == r.files;
    } else {
      InPrefix(master, |p.seen|, p.i);
    }
  }

  lemma StepAppliesNothing(master: seq<MigrationFile>, s: State, a: Action, k: nat)
    requires DistinctIds(master) && Inv(master, s) && Enabled(s, a) && k < |s.runners|
    requires AppliesNothing(s.runners[k]) && |s.runners[k].files| <= |s.applied|
    ensures AppliesNothing(Apply(s, a).runners[k]) && a != Commit(k) && a != CommitUnseen(k)
  {
    if a == Next(k) {
      TurnAppliesNothing(master, s, k);
    }
  }

  /** The run has not started, or has not read what is recorded. */
  ghost predicate HasNotRead(s: State, k: nat) {
    k >= |s.runners| || s.runners[k].phase.Waiting? || s.runners[k].phase.Locked?
  }

  lemma SuccessStaysRecorded(
    master: seq<MigrationFile>, states: seq<State>, actions: seq<Action>, m: nat, n: nat, j: nat)
    requires DistinctIds(master) && IsRun(master, states, actions) && m <= n < |states|
    requires j < |states[m].runners| && states[m].runners[j].phase.Succeeded?
    ensures |states[m].runners[j].files| <= |states[n].applied|
  {
    RunKeepsInv(master, states, actions, m);
    EffectsLast(master, states, actions, m, n);
    assert RunnerOk(master, states[m], j);
  }

  ghost predicate NeverCommits(actions: seq<Action>, m: nat, n: nat, k: nat)
    requires n <= |actions|
  {
    forall i | m <= i < n :: actions[i] != Commit(k) && actions[i] != CommitUnseen(k)
  }

  lemma FilesStay(master: seq<MigrationFile>, states: seq<State>, actions: seq<Action>, n: nat, k: nat)
    requires IsRun(master, states, actions) && n + 1 < |states| && k < |states[n].runners|
    ensures k < |states[n + 1].runners| && states[n + 1].runners[k].files == states[n].runners[k].files
  {
    assert StepAt(master, states, actions, n);
    NothingIsUndone(states[n], actions[n]);
  }

  /** One more step of a run that applies nothing. */
  lemma NextStepAppliesNothing(
    master: seq<MigrationFile>, states: seq<State>, actions: seq<Action>, n: nat, k: nat)
    requires DistinctIds(master) && IsRun(master, states, actions) && n + 1 < |states| && k < |states[n].runners|
    requires AppliesNothing(states[n].runners[k]) && |states[n].runners[k].files| <= |states[n].applied|
    ensures k < |states[n + 1].runners| && AppliesNothing(states[n + 1].runners[k])
    ensures actions[n] != Commit(k) && actions[n] != CommitUnseen(k)
  {
    assert StepAt(master, states, actions, n);
    RunKeepsInv(master, states, actions, n);
    NothingIsUndone(states[n], actions[n]);
    StepAppliesNothing(master, states[n], actions[n], k);
  }

  /** A run that has just started has applied nothing. */
  lemma NewRunAppliesNothing(
    master: seq<MigrationFile>, states: seq<State>, actions: seq<Action>, n: nat, k: nat)
    requires IsRun(master, states, actions) && n + 1 < |states|
    requires |states[n].runners| <= k < |states[n + 1].runners|
    ensures AppliesNothing(states[n + 1].runners[k])
  {
    assert StepAt(master, states, actions, n);
  }

  lemma {:induction false} RunAppliesNothing(
    master: seq<MigrationFile>, states: seq<State>, actions: seq<Action>, m: nat, n: nat, j: nat, k: nat)
    requires DistinctIds(master) && IsRun(master, states, actions) && m <= n < |states|
    requires j < |states[m].runners| && states[m].runners[j].phase.Succeeded? && HasNotRead(states[m], k)
    requires k < |states[n].runners| && |states[n].runners[k].files| <= |states[m].runners[j].files|
    ensures AppliesNothing(states[n].runners[k])
    decreases n
  {
    if m < n {
      if k < |states[n - 1].runners| {
        FilesStay(master, states, actions, n - 1, k);
        RunAppliesNothing(master, states, actions, m, n - 1, j, k);
        SuccessStaysRecorded(master, states, actions, m, n - 1, j);
        NextStepAppliesNothing(master, states, actions, n - 1, k);
      } else {
        NewRunAppliesNothing(master, states, actions, n - 1, k);
      }
    }
  }

  /** Only a run that exists commits. */
  lemma CommitterExists(master: seq<MigrationFile>, states: seq<State>, actions: seq<Action>, i: nat, k: nat)
    requires IsRun(master, states, actions) && i < |actions| && actions[i] in {Commit(k), CommitUnseen(k)}
    ensures k < |states[i].runners|
  {
    assert StepAt(master, states, actions, i);
  }

  lemma {:induction false} FilesStayThrough(
    master: seq<MigrationFile>, states: seq<State>, actions: seq<Action>, i: nat, n: nat, k: nat)
    requires IsRun(master, states, actions) && i <= n < |states| && k < |states[i].runners|
    ensures k < |states[n].runners| && states[n].runners[k].files == states[i].runners[k].files
    decreases n
  {
    if i < n {
      FilesStayThrough(master, states, actions, i, n - 1, k);
      FilesStay(master, states, actions, n - 1, k);
    }
  }

  /** After a run has succeeded, a run over no more of the list that had not yet read what is
      recorded applies nothing, in whatever interleaving: none of its steps commits, and if it
      succeeds it has skipped all its files, as `AppliesNothing` says. */
  lemma NextRunAppliesNothing(
    master: seq<MigrationFile>, states: seq<State>, actions: seq<Action>, m: nat, n: nat, j: nat, k: nat)
    requires DistinctIds(master) && IsRun(master, states, actions) && m <= n < |states|
    requires j < |states[m].runners| && states[m].runners[j].phase.Succeeded? && HasNotRead(states[m], k)
    requires k < |states[n].runners| && |states[n].runners[k].files| <= |states[m].runners[j].files|
    ensures AppliesNothing(states[n].runners[k]) && NeverCommits(actions, m, n, k)
  {
    RunAppliesNothing(master, states, actions, m, n, j, k);
    forall i | m <= i < n ensures actions[i] != Commit(k) && actions[i] != CommitUnseen(k) {
      if actions[i] in {Commit(k), CommitUnseen(k)} {
        CommitterExists(master, states, actions, i, k);
        FilesStayThrough(master, states, actions, i, n, k);
        RunAppliesNothing(master, states, actions, m, i, j, k);
        SuccessStaysRecorded(master, states, actions, m, i, j);
        NextStepAppliesNothing(master, states, actions, i, k);
      }
    }
  }

  /** A run never violates the primary key: whenever it has opened a transaction, the row is
      not there yet, so that the transaction can commit. */
  lemma InsertNeverConflicts(
    master: seq<MigrationFile>, states: seq<State>, actions: seq<Action>, n: nat, k: nat)
    requires DistinctIds(master) && IsRun(master, states, actions) && n < |states|
    requires k < |states[n].runners| && states[n].runners[k].phase.InTransaction?
    ensures Enabled(states[n], Commit(k))
  {
    RunKeepsInv(master, states, actions, n);
    assert RunnerOk(master, states[n], k);
    var p := states[n].runners[k].phase;
    InPrefix(master, |states[n].applied|, p.i);
  }

  /** The most steps a run may still take. */
  function StepsLeft(r: Runner): int {
    match r.phase
    case Waiting => 2 * |r.files| + 3
    case Locked => 2 * |r.files| + 2
    case Looping(i, _, _, _) => 2 * (|r.files| - i) + 1
    case InTransaction(i, _, _, _) => 2 * (|r.files| - i)
    case Succeeded(_, _) => 0
    case Stopped => 0
  }

  /** Every step of a run brings its end nearer, and no other run's step puts it off. */
  lemma RunsComeToAnEnd(master: seq<MigrationFile>, s: State, a: Action, j: nat)
    requires DistinctIds(master) && Inv(master, s) && Enabled(s, a) && !a.Start? && j < |s.runners|
    ensures var before, after := StepsLeft(s.runners[j]), StepsLeft(Apply(s, a).runners[j]);
            0 <= after <= before && (a.k == j ==> after < before)
  {
    assert RunnerOk(master, s, j) && RunnerOk(master, s, a.k);
  }

  /** Unless all runs have ended, one of them can go on without an error: the run that holds
      the lock, or any that waits for it when it is free. */
  lemma RunsAreNeverStuck(master: seq<MigrationFile>, s: State, k: nat)
    requires DistinctIds(master) && Inv(master, s) && k < |s.runners| && Live(s.runners[k].phase)
    ensures exists a: Action :: !a.Start? && !a.Stop? && Enabled(s, a)
  {
    assert RunnerOk(master, s, k);
    if s.lock.None? {
      assert Enabled(s, Acquire(k));
    } else {
      var h := s.lock.value;
      assert RunnerOk(master, s, h);
      match s.runners[h].phase
      case Locked => assert Enabled(s, ReadApplied(h));
      case Looping(i, _, _, _) => assert Enabled(s, Next(h));
      case InTransaction(i, _, _, _) =>
        InPrefix(master, |s.applied|, i);
        assert Enabled(s, Commit(h));
      case _ =>
    }
  }

  // ---------------------------------------------------------------- one run

  /** The file at index i belongs to the skipped ones if it is among the first n. */
  lemma NextFile(files: seq<MigrationFile>, n: nat, i: nat)
    requires i < |files|
    ensures Ids(files[..Least(n, i + 1)]) == Ids(files[..Least(n, i)]) + if i < n then [files[i].id] else []
    ensures Ids(files[Least(n, i + 1)..i + 1])
         == Ids(files[Least(n, i)..i]) + if i < n then [] else [files[i].id]
  {
    if i < n {
      assert files[..i + 1] == files[..i] + [files[i]];
    } else {
      IdsGrow(files, n, i);
    }
  }

  /** How the database and the network answer to one transaction. */
  datatype Answer = Commits | RollsBack | CommitsUnseen

  /** After i files: those among the first n are skipped, the others done. */
  ghost predicate Reports(files: seq<MigrationFile>, n: nat, i: nat, done: seq<Text>, skipped: seq<Text>) {
    i <= |files| && skipped == Ids(files[..Least(n, i)]) && done == Ids(files[Least(n, i)..i])
  }

  lemma ReportsAll(files: seq<MigrationFile>, n: nat, done: seq<Text>, skipped: seq<Text>)
    requires Reports(files, n, |files|, done, skipped)
    ensures skipped == Ids(files[..Least(n, |files|)]) && done == Ids(files[Least(n, |files|)..])
  {
    assert files[Least(n, |files|)..|files|] == files[Least(n, |files|)..];
  }

  class Database {
    var applied: seq<Text>
    var schema: seq<Text>

    constructor ()
      ensures applied == [] && schema == []
    {
      applied, schema := [], [];
    }

    ghost predicate Holds(master: seq<MigrationFile>, n: nat)
      reads this
    {
      n <= |master| && applied == Ids(master[..n]) && schema == Scripts(master[..n])
    }

    /** One transaction: the row and the script together, or neither. */
    method Transact(f: MigrationFile, answer: Answer) returns (ok: bool)
      modifies this
      ensures ok == answer.Commits?
      ensures applied == if answer.RollsBack? then old(applied) else old(applied) + [f.id]
      ensures schema == if answer.RollsBack? then old(schema) else old(schema) + [f.sql]
    {
      if !answer.RollsBack? {
        applied := applied + [f.id];
        schema := schema + [f.sql];
      }
      ok := answer.Commits?;
    }

    /** `runMigrations` while it holds the lock. The result is the list of applied and of
        skipped ids, or the id of the migration at which the run failed. */
    method RunMigrations(ghost master: seq<MigrationFile>, ghost n: nat, files: seq<MigrationFile>,
                         answers: Text -> Answer)
      returns (r: Result<(seq<Text>, seq<Text>), Text>)
      requires DistinctIds(master) && files <= master && Holds(master, n)
      modifies this
      ensures match r
              case Ok((done, skipped)) =>
                && Holds(master, if n < |files| then |files| else n)
                && skipped == Ids(files[..Least(n, |files|)]) && done == Ids(files[Least(n, |files|)..])
                && forall i | n <= i < |files| :: answers(files[i].id) == Commits
              case Err(id) =>
                exists i: nat ::
                  && n <= i < |files| && id == files[i].id && answers(id) != Commits
                  && (forall j | n <= j < i :: answers(files[j].id) == Commits)
                  && Holds(master, if answers(id) == RollsBack then i else i + 1)
    {
      var appliedIds := applied;
      var done: seq<Text>, skipped: seq<Text> := [], [];
      for i := 0 to |files|
        invariant Holds(master, if n < i then i else n)
        invariant Reports(files, n, i, done, skipped)
        invariant forall j | n <= j < i :: answers(files[j].id) == Commits
      {
        InPrefix(master, n, i);
        assert files[i] == master[i];
        NextFile(files, n, i);
        if files[i].id in appliedIds {
          skipped := skipped + [files[i].id];
          continue;
        }
        PrefixGrows(master, i);
        var ok := Transact(files[i], answers(files[i].id));
        if !ok {
          return Err(files[i].id);
        }
        done := done + [files[i].id];
      }
      ReportsAll(files, n, done, skipped);
      return Ok((done, skipped));
    }
  }
}
