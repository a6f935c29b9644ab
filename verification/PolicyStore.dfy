/** The policy store: reloads read the table, wait, and then swap the snapshot. */
module PolicyStores {
  import opened Wrappers
  import opened Policies
  import opened PolicyRows

  /** What a repository lists for a content T of the policies table, if that can be read at
      all, and which lists are valid. */
  datatype Source<!T, !L> = Source(listing: T -> Option<L>, valid: L -> bool)

  /** A reload waits for its query, then for its turn to go on; the query may fail. */
  datatype Reload<L> =
    | Asking
    | HasRead(version: nat, listed: Option<L>)
    | QueryFailed
    | Finished(swapped: bool)

  /** `tables` is the history of the policies table, its last element the present content.
      `loaded` tells which content the snapshot was read from, if it is not the initial list. */
  datatype State<T, L> = State(
    tables: seq<T>,
    initial: L,
    snapshot: L,
    loaded: Option<nat>,
    reloads: seq<Reload<L>>)

  datatype Action<T> =
    | Write(table: T)
    | StartReload
    | Read(k: nat)
    | LoseQuery(k: nat)
    | Resume(k: nat)

  ghost predicate Enabled<T, L>(s: State<T, L>, a: Action<T>) {
    match a
    case Read(k) => |s.tables| > 0 && k < |s.reloads| && s.reloads[k].Asking?
    case LoseQuery(k) => k < |s.reloads| && s.reloads[k].Asking?
    case Resume(k) => k < |s.reloads| && (s.reloads[k].HasRead? || s.reloads[k].QueryFailed?)
    case _ => true
  }

  /** The reload has something to swap in: a list that was read and is valid. */
  ghost predicate Succeeds<T, L>(src: Source<T, L>, r: Reload<L>) {
    r.HasRead? && r.listed.Some? && src.valid(r.listed.value)
  }

  ghost function Apply<T, L>(src: Source<T, L>, s: State<T, L>, a: Action<T>): State<T, L>
    requires Enabled(s, a)
  {
    match a
    case Write(table) => s.(tables := s.tables + [table])
    case StartReload => s.(reloads := s.reloads + [Asking])
    case Read(k) =>
      var v := |s.tables| - 1;
      s.(reloads := s.reloads[k := HasRead(v, src.listing(s.tables[v]))])
    case LoseQuery(k) => s.(reloads := s.reloads[k := QueryFailed])
    case Resume(k) =>
      var r := s.reloads[k];
      if Succeeds(src, r) then
        s.(snapshot := r.listed.value, loaded := Some(r.version), reloads := s.reloads[k := Finished(true)])
      else s.(reloads := s.reloads[k := Finished(false)])
  }

  ghost predicate Initial<T, L>(src: Source<T, L>, s: State<T, L>) {
    && |s.tables| == 1 && s.snapshot == s.initial && src.valid(s.initial)
    && s.loaded == None && s.reloads == []
  }

  ghost predicate ReadOnce<T, L>(src: Source<T, L>, s: State<T, L>, r: Reload<L>) {
    r.HasRead? ==> r.version < |s.tables| && r.listed == src.listing(s.tables[r.version])
  }

  /** The snapshot is the initial list or the whole listing of one content of the table. */
  ghost predicate SnapshotIsWhole<T, L>(src: Source<T, L>, s: State<T, L>) {
    match s.loaded
    case None => s.snapshot == s.initial
    case Some(v) => v < |s.tables| && src.listing(s.tables[v]) == Some(s.snapshot)
  }

  ghost predicate Inv<T, L>(src: Source<T, L>, s: State<T, L>) {
    && |s.tables| > 0 && src.valid(s.snapshot) && SnapshotIsWhole(src, s)
    && forall k | 0 <= k < |s.reloads| :: ReadOnce(src, s, s.reloads[k])
  }

  lemma StepKeepsInv<T, L>(src: Source<T, L>, s: State<T, L>, a: Action<T>)
    requires Inv(src, s) && Enabled(s, a)
    ensures Inv(src, Apply(src, s, a))
  {
    var u := Apply(src, s, a);
    forall v | 0 <= v < |s.tables| ensures u.tables[v] == s.tables[v] {}
    forall k | 0 <= k < |u.reloads| ensures ReadOnce(src, u, u.reloads[k]) {
      if k < |s.reloads| && u.reloads[k] == s.reloads[k] {
        assert ReadOnce(src, s, s.reloads[k]);
      }
    }
    if a.Resume? {
      assert ReadOnce(src, s, s.reloads[a.k]);
    }
  }

  ghost predicate IsStep<T, L>(src: Source<T, L>, s: State<T, L>, a: Action<T>, u: State<T, L>) {
    Enabled(s, a) && u == Apply(src, s, a)
  }

  ghost predicate IsRun<T, L>(src: Source<T, L>, states: seq<State<T, L>>, actions: seq<Action<T>>) {
    && |states| == |actions| + 1 && Initial(src, states[0])
    && forall i | 0 <= i < |actions| :: StepAt(src, states, actions, i)
  }

  ghost predicate StepAt<T, L>(src: Source<T, L>, states: seq<State<T, L>>, actions: seq<Action<T>>, i: nat)
    requires |states| == |actions| + 1 && i < |actions|
  {
    IsStep(src, states[i], actions[i], states[i + 1])
  }

  lemma {:induction false} RunKeepsInv<T, L>(
    src: Source<T, L>, states: seq<State<T, L>>, actions: seq<Action<T>>, n: nat)
    requires IsRun(src, states, actions) && n < |states|
    ensures Inv(src, states[n])
  {
    if n > 0 {
      RunKeepsInv(src, states, actions, n - 1);
      assert StepAt(src, states, actions, n - 1);
      StepKeepsInv(src, states[n - 1], actions[n - 1]);
    }
  }

  // ---------------------------------------------------------------- promises

  /** The table's content at the moment of a step. */
  function Present<T, L>(s: State<T, L>): T
    requires |s.tables| > 0
  {
    s.tables[|s.tables| - 1]
  }

  /** Step i of the run is the query of some reload, and it listed exactly these policies. */
  ghost predicate ListedAt<T, L>(src: Source<T, L>, states: seq<State<T, L>>, actions: seq<Action<T>>, i: nat, ps: L)
    requires |states| == |actions| + 1
  {
    i < |actions| && actions[i].Read? && |states[i].tables| > 0 && src.listing(Present(states[i])) == Some(ps)
  }

  lemma {:induction false} EveryReadHasItsStep<T, L>(
    src: Source<T, L>, states: seq<State<T, L>>, actions: seq<Action<T>>, n: nat, k: nat)
    returns (i: nat)
    requires IsRun(src, states, actions) && n < |states| && k < |states[n].reloads|
    requires states[n].reloads[k].HasRead? && states[n].reloads[k].listed.Some?
    ensures i < n && ListedAt(src, states, actions, i, states[n].reloads[k].listed.value)
  {
    assert n > 0;
    assert StepAt(src, states, actions, n - 1);
    if actions[n - 1] == Read(k) {
      i := n - 1;
    } else {
      i := EveryReadHasItsStep(src, states, actions, n - 1, k);
    }
  }

  /** In every interleaving of reloads and writes the snapshot is valid, and it is either the
      initial list or all that was enabled at one instant, when some reload's query ran. */
  lemma {:induction false} SnapshotIsOneInstant<T, L>(
    src: Source<T, L>, states: seq<State<T, L>>, actions: seq<Action<T>>, n: nat)
    requires IsRun(src, states, actions) && n < |states|
    ensures src.valid(states[n].snapshot)
    ensures || states[n].snapshot == states[0].snapshot
            || exists i: nat :: i < n && ListedAt(src, states, actions, i, states[n].snapshot)
  {
    RunKeepsInv(src, states, actions, n);
    if n > 0 {
      SnapshotIsOneInstant(src, states, actions, n - 1);
      var s, a := states[n - 1], actions[n - 1];
      assert StepAt(src, states, actions, n - 1);
      if a.Resume? && Succeeds(src, s.reloads[a.k]) {
        var i := EveryReadHasItsStep(src, states, actions, n - 1, a.k);
      }
    }
  }

  /** Step i lets a reload go on that has read a valid list. */
  ghost predicate SwapsAt<T, L>(src: Source<T, L>, states: seq<State<T, L>>, actions: seq<Action<T>>, i: nat)
    requires |states| == |actions| + 1
  {
    && i < |actions| && actions[i].Resume? && actions[i].k < |states[i].reloads|
    && Succeeds(src, states[i].reloads[actions[i].k])
  }

  /** No step from m to n lets a successful reload go on. */
  ghost predicate NoSwap<T, L>(
    src: Source<T, L>, states: seq<State<T, L>>, actions: seq<Action<T>>, m: nat, n: nat)
    requires |states| == |actions| + 1
  {
    forall i: nat | m <= i < n :: !SwapsAt(src, states, actions, i)
  }

  /** Between any two moments of a run the snapshot is what the last successful reload had read
      and, if there was none, what it was: starting, failing and querying reloads, and writes
      to the table, never change it. */
  lemma {:induction false} SnapshotIsTheLastSuccess<T, L>(
    src: Source<T, L>, states: seq<State<T, L>>, actions: seq<Action<T>>, m: nat, n: nat)
    requires IsRun(src, states, actions) && m <= n < |states|
    ensures NoSwap(src, states, actions, m, n) ==> states[n].snapshot == states[m].snapshot
    ensures !NoSwap(src, states, actions, m, n) ==>
              exists i: nat :: m <= i < n && SwapsAt(src, states, actions, i)
                && NoSwap(src, states, actions, i + 1, n)
                && states[n].snapshot == states[i].reloads[actions[i].k].listed.value
    decreases n
  {
    if m < n {
      SnapshotIsTheLastSuccess(src, states, actions, m, n - 1);
      assert StepAt(src, states, actions, n - 1);
      if SwapsAt(src, states, actions, n - 1) {
        assert NoSwap(src, states, actions, n, n);
      } else if !NoSwap(src, states, actions, m, n - 1) {
        var i: nat :| m <= i < n - 1 && SwapsAt(src, states, actions, i)
                      && NoSwap(src, states, actions, i + 1, n - 1)
                      && states[n - 1].snapshot == states[i].reloads[actions[i].k].listed.value;
        assert NoSwap(src, states, actions, i + 1, n);
      } else {
        assert NoSwap(src, states, actions, m, n);
      }
    }
  }

  /** Among any two reloads one has finished. */
  ghost predicate NoOverlap<T, L>(s: State<T, L>) {
    forall j, k | 0 <= j < k < |s.reloads| :: s.reloads[j].Finished? || s.reloads[k].Finished?
  }

  /** What was loaded is not newer than anything that waits to be swapped in. */
  ghost predicate NothingStale<T, L>(s: State<T, L>) {
    && (s.loaded.Some? ==> s.loaded.value < |s.tables|)
    && forall k | 0 <= k < |s.reloads| && s.reloads[k].HasRead? && s.loaded.Some? ::
         s.loaded.value <= s.reloads[k].version
  }

  function Age<T, L>(s: State<T, L>): int {
    if s.loaded.Some? then s.loaded.value else -1
  }

  /** A step makes the snapshot older exactly when it lets a successful reload go on whose query
      ran before that of the reload loaded last. */
  lemma AgeDropsExactly<T, L>(src: Source<T, L>, s: State<T, L>, a: Action<T>)
    requires Inv(src, s) && Enabled(s, a)
    ensures Age(Apply(src, s, a)) < Age(s)
       <==> && a.Resume? && Succeeds(src, s.reloads[a.k])
            && s.loaded.Some? && s.reloads[a.k].version < s.loaded.value
  {
    if a.Resume? {
      assert ReadOnce(src, s, s.reloads[a.k]);
    }
  }

  /** The content that the reload resumed at step i had read. */
  ghost function VersionAt<T, L>(
    src: Source<T, L>, states: seq<State<T, L>>, actions: seq<Action<T>>, i: nat): nat
    requires |states| == |actions| + 1 && SwapsAt(src, states, actions, i)
  {
    states[i].reloads[actions[i].k].version
  }

  /** Some step before state n puts an older content in place. */
  ghost predicate GoesBack<T, L>(states: seq<State<T, L>>, n: nat)
    requires n < |states|
  {
    exists m: nat :: m < n && Age(states[m + 1]) < Age(states[m])
  }

  /** The reload resumed at step i had read a newer content than the one resumed at step j. */
  ghost predicate Overtakes<T, L>(
    src: Source<T, L>, states: seq<State<T, L>>, actions: seq<Action<T>>, i: nat, j: nat)
    requires |states| == |actions| + 1
  {
    && SwapsAt(src, states, actions, i) && SwapsAt(src, states, actions, j)
    && VersionAt(src, states, actions, j) < VersionAt(src, states, actions, i)
  }

  lemma {:induction false} SomeoneLoaded<T, L>(
    src: Source<T, L>, states: seq<State<T, L>>, actions: seq<Action<T>>, n: nat) returns (i: nat)
    requires IsRun(src, states, actions) && n < |states| && states[n].loaded.Some?
    ensures i < n && SwapsAt(src, states, actions, i)
    ensures VersionAt(src, states, actions, i) == states[n].loaded.value
  {
    assert n > 0;
    assert StepAt(src, states, actions, n - 1);
    if SwapsAt(src, states, actions, n - 1) {
      i := n - 1;
    } else {
      i := SomeoneLoaded(src, states, actions, n - 1);
    }
  }

  lemma {:induction false} AgeOnlyGrows<T, L>(states: seq<State<T, L>>, m: nat, n: nat)
    requires m <= n < |states| && !GoesBack(states, n)
    ensures Age(states[m]) <= Age(states[n])
    decreases n
  {
    if m < n {
      assert !GoesBack(states, n - 1);
      AgeOnlyGrows(states, m, n - 1);
      assert !(Age(states[n - 1 + 1]) < Age(states[n - 1]));
    }
  }

  /** The snapshot goes back to an older content of the table exactly when, of two reloads that
      succeed, the one that had read the older content goes on after the other. */
  lemma GoesBackExactly<T, L>(
    src: Source<T, L>, states: seq<State<T, L>>, actions: seq<Action<T>>, n: nat)
    requires IsRun(src, states, actions) && n < |states|
    ensures GoesBack(states, n)
       <==> exists i: nat, j: nat :: i < j < n && Overtakes(src, states, actions, i, j)
  {
    if GoesBack(states, n) {
      var m: nat :| m < n && Age(states[m + 1]) < Age(states[m]);
      RunKeepsInv(src, states, actions, m);
      assert StepAt(src, states, actions, m);
      AgeDropsExactly(src, states[m], actions[m]);
      var i := SomeoneLoaded(src, states, actions, m);
      assert Overtakes(src, states, actions, i, m);
    }
    if i: nat, j: nat :| i < j < n && Overtakes(src, states, actions, i, j) {
      assert StepAt(src, states, actions, i) && StepAt(src, states, actions, j);
      if !GoesBack(states, n) {
        assert !GoesBack(states, j + 1);
        AgeOnlyGrows(states, i + 1, j + 1);
        assert false;
      }
    }
  }

  lemma {:induction false} SequentialReloadsHoldNothingStale<T, L>(
    src: Source<T, L>, states: seq<State<T, L>>, actions: seq<Action<T>>, n: nat)
    requires IsRun(src, states, actions) && n < |states| && forall i | 0 <= i <= n :: NoOverlap(states[i])
    ensures NothingStale(states[n])
  {
    if n > 0 {
      SequentialReloadsHoldNothingStale(src, states, actions, n - 1);
      RunKeepsInv(src, states, actions, n - 1);
      var s, a := states[n - 1], actions[n - 1];
      assert StepAt(src, states, actions, n - 1) && NoOverlap(s);
      if a.Resume? {
        assert ReadOnce(src, s, s.reloads[a.k]);
        forall j | 0 <= j < |s.reloads| && j != a.k ensures s.reloads[j].Finished? {}
      }
    }
  }

  /** When reloads do not overlap, the snapshot never goes back to an older content of the
      table. */
  lemma {:induction false} SequentialReloadsGoForward<T, L>(
    src: Source<T, L>, states: seq<State<T, L>>, actions: seq<Action<T>>, m: nat, n: nat)
    requires IsRun(src, states, actions) && m <= n < |states| && forall i | 0 <= i <= n :: NoOverlap(states[i])
    ensures Age(states[m]) <= Age(states[n])
  {
    if m < n {
      SequentialReloadsGoForward(src, states, actions, m, n - 1);
      SequentialReloadsHoldNothingStale(src, states, actions, n - 1);
      assert StepAt(src, states, actions, n - 1);
    }
  }

  /** A reload that goes on with no write since its query leaves the snapshot equal to what
      is enabled now. */
  lemma QuietReloadIsCurrent<T, L>(src: Source<T, L>, s: State<T, L>, k: nat)
    requires Inv(src, s) && Enabled(s, Resume(k)) && Succeeds(src, s.reloads[k])
    requires s.reloads[k].version == |s.tables| - 1
    ensures src.listing(Present(Apply(src, s, Resume(k)))) == Some(Apply(src, s, Resume(k)).snapshot)
  {
    assert ReadOnce(src, s, s.reloads[k]);
  }

  /** The states of a run in which two reloads overlap around a write, when the listings are
      `before` and `after`. */
  function Overlap<T, L>(s0: State<T, L>, table: T, before: L, after: L): seq<State<T, L>>
    requires |s0.tables| == 1
  {
    var first, second := HasRead(0, Some(before)), HasRead(1, Some(after));
    var written := s0.(tables := [s0.tables[0], table]);
    [ s0,
      s0.(reloads := [Asking]),
      s0.(reloads := [Asking, Asking]),
      s0.(reloads := [first, Asking]),
      written.(reloads := [first, Asking]),
      written.(reloads := [first, second]),
      written.(reloads := [first, Finished(true)], snapshot := after, loaded := Some(1)),
      written.(reloads := [Finished(true), Finished(true)], snapshot := before, loaded := Some(0)) ]
  }

  function Overlapping<T>(table: T): seq<Action<T>> {
    [StartReload, StartReload, Read(0), Write(table), Read(1), Resume(1), Resume(0)]
  }

  /** Two overlapping reloads: the one that read first goes on last, and the snapshot returns
      to the content before the write, although the newer one had been loaded. */
  lemma OverlappingReloadsMayGoBack<T, L>(src: Source<T, L>, s0: State<T, L>, table: T, before: L, after: L)
    requires Initial(src, s0) && src.listing(s0.tables[0]) == Some(before) && src.listing(table) == Some(after)
    requires src.valid(before) && src.valid(after)
    ensures var states, actions := Overlap(s0, table, before, after), Overlapping(table);
            && IsRun(src, states, actions)
            && Present(states[7]) == table && states[6].snapshot == after && states[7].snapshot == before
  {
    var states, actions := Overlap(s0, table, before, after), Overlapping(table);
    assert s0.tables == [s0.tables[0]];
    forall i | 0 <= i < 7 ensures StepAt(src, states, actions, i) {
      assert Succeeds(src, HasRead(0, Some(before))) && Succeeds(src, HasRead(1, Some(after)));
      assert i in {0, 1, 2, 3, 4, 5, 6};
    }
  }

  // ---------------------------------------------------------------- the policies table

  /** The policy repository as a source. */
  ghost function PolicySource(): Source<seq<Row>, seq<Policy>> {
    Source((rows: seq<Row>) => Listing(rows), (ps: seq<Policy>) => ValidPolicies(ps))
  }

  function Listing(rows: seq<Row>): Option<seq<Policy>> {
    var r := ListEnabled(rows);
    if r.Ok? then Some(r.value) else None
  }

  /** For the policies table: the snapshot is always a valid list, so the engine built from it
      per request never fails, and it is the initial list or the whole enabled set at one
      instant of the run. */
  lemma PolicySnapshotIsOneInstant(
    states: seq<State<seq<Row>, seq<Policy>>>, actions: seq<Action<seq<Row>>>, n: nat)
    requires IsRun(PolicySource(), states, actions) && n < |states|
    ensures ValidPolicies(states[n].snapshot)
    ensures || states[n].snapshot == states[0].snapshot
            || exists i: nat :: i < n && actions[i].Read? && |states[i].tables| > 0
                 && ListEnabled(Present(states[i])) == Ok(states[n].snapshot)
  {
    SnapshotIsOneInstant(PolicySource(), states, actions, n);
    assert PolicySource().valid(states[n].snapshot);
    if states[n].snapshot != states[0].snapshot {
      var i: nat :| i < n && ListedAt(PolicySource(), states, actions, i, states[n].snapshot);
      assert Listing(Present(states[i])) == Some(states[n].snapshot);
    }
  }

  // ---------------------------------------------------------------- the class

  class PolicyStore {
    const hasRepository: bool
    var snapshot: seq<Policy>

    ghost predicate Valid()
      reads this
    {
      ValidPolicies(snapshot)
    }

    /** The caller has validated the initial list, or the constructor would have thrown. */
    constructor (hasRepository: bool, initial: seq<Policy>)
      requires ValidPolicies(initial)
      ensures Valid() && snapshot == initial && this.hasRepository == hasRepository
    {
      this.hasRepository := hasRepository;
      snapshot := initial;
    }

    /** Builds an engine from the snapshot; the validation inside never finds a fault. */
    method BuildEngine() returns (engine: Option<seq<Policy>>)
      requires Valid()
      ensures engine == Some(snapshot) && AllNamed(snapshot)
    {
      var fault := ValidatePolicies(snapshot);
      engine := if fault.None? then Some(snapshot) else None;
    }

    /** The part of `reload` after its query; `listed` is absent when the query failed. The
        result is absent when it throws, and otherwise tells whether the snapshot changed. */
    method Reload(listed: Option<Result<seq<Policy>, RowError>>) returns (changed: Option<bool>)
      requires Valid()
      modifies this
      ensures Valid()
      ensures var ok := listed.Some? && listed.value.Ok? && ValidPolicies(listed.value.value);
              && snapshot == (if hasRepository && ok then listed.value.value else old(snapshot))
              && changed == if !hasRepository then Some(false)
                            else if ok then Some(snapshot != old(snapshot)) else None
    {
      if !hasRepository { return Some(false); }
      if listed.None? || listed.value.Err? { return None; }
      var policies := listed.value.value;
      var fault := ValidatePolicies(policies);
      if fault.Some? { return None; }
      changed := Some(policies != snapshot);
      snapshot := policies;
    }

    /** A failure is reported as "not changed". */
    method ReloadSafe(listed: Option<Result<seq<Policy>, RowError>>) returns (changed: bool)
      requires Valid()
      modifies this
      ensures Valid() && changed == (snapshot != old(snapshot))
      ensures var ok := hasRepository && listed.Some? && listed.value.Ok? && ValidPolicies(listed.value.value);
              snapshot == if ok then listed.value.value else old(snapshot)
    {
      var r := Reload(listed);
      changed := r == Some(true);
    }
  }
}
