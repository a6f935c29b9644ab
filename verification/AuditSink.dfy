/** The buffered audit sink: a bounded queue, flushes that wait for one another, retries. */
module AuditSinks {
  import opened Wrappers

  datatype Config = Config(maxQueueSize: int, batchSize: int, maxAttempts: int)

  ghost predicate ValidConfig(cfg: Config) {
    cfg.maxQueueSize >= 1 && cfg.batchSize >= 1 && cfg.maxAttempts >= 1
  }

  /** The sizes for which the counters add up: there is room for an event, and a batch that is
      not empty is attempted. */
  ghost predicate Accounts(cfg: Config) {
    cfg.maxQueueSize >= 1 && (cfg.maxAttempts >= 1 || cfg.batchSize < 1)
  }

  /** A call of `flush`: it first waits for the flush before it, then sends batch after
      batch, pausing after a failed attempt. `waited` adds up the pauses of one batch. */
  datatype Flush<E> =
    | Chained
    | Sending(batch: seq<E>, attempt: nat, waited: nat)
    | Pausing(batch: seq<E>, attempt: nat, waited: nat)
    | BetweenBatches
    | Settled

  /** What became of an event after it left the queue. */
  datatype Fate = Dropped | InFlight | Flushed | Failed | Forgotten

  datatype Departure<E> = Departure(event: E, fate: Fate)

  /** `accepted`, `departures` and `stored` record history: every event taken in, every event
      that left the queue in order of leaving, and the rows of the event table. */
  datatype State<E> = State(
    queue: seq<E>,
    closed: bool,
    flushed: nat,
    failed: nat,
    dropped: nat,
    flushes: seq<Flush<E>>,
    closer: Option<nat>,
    accepted: seq<E>,
    departures: seq<Departure<E>>,
    stored: seq<E>)

  function Empty<E>(): State<E> {
    State([], false, 0, 0, 0, [], None, [], [], [])
  }

  datatype Action<E> =
    | Record(event: E)
    | StartFlush
    | Close
    | Proceed(k: nat)
    | Succeed(k: nat)
    | Fault(k: nat)
    | Wake(k: nat)

  // ---------------------------------------------------------------- steps

  function Take(cfg: Config, n: nat): nat {
    if cfg.batchSize <= 0 then 0 else if cfg.batchSize <= n then cfg.batchSize else n
  }

  function Marked<E>(events: seq<E>, fate: Fate): (r: seq<Departure<E>>)
    ensures |r| == |events| && forall i | 0 <= i < |events| :: r[i] == Departure(events[i], fate)
  {
    seq(|events|, i requires 0 <= i < |events| => Departure(events[i], fate))
  }

  /** The events in flight receive their fate. */
  function Resolve<E>(d: seq<Departure<E>>, fate: Fate): (r: seq<Departure<E>>)
    ensures |r| == |d|
    ensures forall i | 0 <= i < |d| ::
              r[i] == Departure(d[i].event, if d[i].fate == InFlight then fate else d[i].fate)
  {
    seq(|d|, i requires 0 <= i < |d| =>
      Departure(d[i].event, if d[i].fate == InFlight then fate else d[i].fate))
  }

  function Recorded<E>(cfg: Config, s: State<E>, e: E): State<E> {
    if s.closed then s
    else if |s.queue| >= cfg.maxQueueSize then
      var oldest := if s.queue == [] then [] else [s.queue[0]];
      s.(queue := s.queue[|oldest|..] + [e],
         dropped := s.dropped + 1,
         accepted := s.accepted + [e],
         departures := s.departures + Marked(oldest, Dropped))
    else s.(queue := s.queue + [e], accepted := s.accepted + [e])
  }

  /** The loop of `flush`: take a batch, or end when the queue is empty. */
  function Looped<E>(cfg: Config, s: State<E>, k: nat): State<E>
    requires k < |s.flushes|
  {
    if s.queue == [] then s.(flushes := s.flushes[k := Settled])
    else
      var n := Take(cfg, |s.queue|);
      var batch := s.queue[..n];
      var fate := if cfg.maxAttempts >= 1 then InFlight else Forgotten;
      s.(queue := s.queue[n..],
         departures := s.departures + Marked(batch, fate),
         flushes := s.flushes[k := if cfg.maxAttempts >= 1 then Sending(batch, 1, 0) else BetweenBatches])
  }

  ghost predicate Enabled<E>(cfg: Config, s: State<E>, a: Action<E>) {
    match a
    case Proceed(k) =>
      && k < |s.flushes|
      && (s.flushes[k].BetweenBatches? || (s.flushes[k].Chained? && (k == 0 || s.flushes[k - 1].Settled?)))
    case Succeed(k) => k < |s.flushes| && s.flushes[k].Sending?
    case Fault(k) => k < |s.flushes| && s.flushes[k].Sending?
    case Wake(k) => k < |s.flushes| && s.flushes[k].Pausing?
    case _ => true
  }

  ghost function Apply<E>(cfg: Config, s: State<E>, a: Action<E>): State<E>
    requires Enabled(cfg, s, a)
  {
    match a
    case Record(e) => Recorded(cfg, s, e)
    case StartFlush => s.(flushes := s.flushes + [Chained])
    case Close =>
      if s.closed then s
      else s.(closed := true, closer := Some(|s.flushes|), flushes := s.flushes + [Chained])
    case Proceed(k) => Looped(cfg, s, k)
    case Succeed(k) =>
      var batch := s.flushes[k].batch;
      s.(flushed := s.flushed + |batch|,
         stored := s.stored + batch,
         departures := Resolve(s.departures, Flushed),
         flushes := s.flushes[k := BetweenBatches])
    case Fault(k) =>
      var f := s.flushes[k];
      if f.attempt == cfg.maxAttempts then
        s.(failed := s.failed + |f.batch|,
           departures := Resolve(s.departures, Failed),
           flushes := s.flushes[k := BetweenBatches])
      else s.(flushes := s.flushes[k := Pausing(f.batch, f.attempt, f.waited)])
    case Wake(k) =>
      var f := s.flushes[k];
      s.(flushes := s.flushes[k := Sending(f.batch, f.attempt + 1, f.waited + 100 * f.attempt)])
  }

  // ---------------------------------------------------------------- history

  function Events<E>(d: seq<Departure<E>>): (r: seq<E>)
    ensures |r| == |d| && forall i | 0 <= i < |d| :: r[i] == d[i].event
  {
    seq(|d|, i requires 0 <= i < |d| => d[i].event)
  }

  /** The departed events with a fate, in order of leaving the queue. */
  function Select<E>(d: seq<Departure<E>>, fate: Fate): seq<E> {
    if d == [] then []
    else if d[0].fate == fate then [d[0].event] + Select(d[1..], fate)
    else Select(d[1..], fate)
  }

  lemma {:induction false} SelectConcat<E>(a: seq<Departure<E>>, b: seq<Departure<E>>, fate: Fate)
    ensures Select(a + b, fate) == Select(a, fate) + Select(b, fate)
  {
    if a == [] {
      assert a + b == b;
    } else {
      assert (a + b)[1..] == a[1..] + b;
      SelectConcat(a[1..], b, fate);
    }
  }

  lemma {:induction false} SelectMarked<E>(events: seq<E>, mark: Fate, fate: Fate)
    ensures Select(Marked(events, mark), fate) == if mark == fate then events else []
  {
    if events != [] {
      assert Marked(events, mark)[1..] == Marked(events[1..], mark);
      SelectMarked(events[1..], mark, fate);
      assert events == [events[0]] + events[1..];
    }
  }

  /** Once an event is in flight, nothing that left the queue after it has settled before it. */
  ghost predicate InOrder<E>(d: seq<Departure<E>>) {
    forall i, j | 0 <= i < j < |d| && d[i].fate == InFlight :: d[j].fate in {InFlight, Dropped}
  }

  lemma {:induction false} SelectResolved<E>(d: seq<Departure<E>>, fate: Fate, f: Fate)
    requires InOrder(d) && fate in {Flushed, Failed}
    ensures Select(Resolve(d, fate), f)
         == if f == InFlight then [] else if f == fate then Select(d, fate) + Select(d, InFlight)
            else Select(d, f)
  {
    if d != [] {
      assert Resolve(d, fate)[1..] == Resolve(d[1..], fate);
      SelectResolved(d[1..], fate, f);
      if d[0].fate == InFlight {
        assert forall j | 0 <= j < |d[1..]| :: d[1..][j].fate in {InFlight, Dropped};
        NoneSelected(d[1..], fate);
      }
    }
  }

  lemma {:induction false} NoneSelected<E>(d: seq<Departure<E>>, fate: Fate)
    requires forall i | 0 <= i < |d| :: d[i].fate != fate
    ensures Select(d, fate) == []
  {
    if d != [] {
      NoneSelected(d[1..], fate);
    }
  }

  /** Every departed event has exactly one fate. */
  lemma {:induction false} FatesAddUp<E>(d: seq<Departure<E>>)
    ensures |Select(d, Dropped)| + |Select(d, InFlight)| + |Select(d, Flushed)| + |Select(d, Failed)|
            + |Select(d, Forgotten)| == |d|
  {
    if d != [] {
      FatesAddUp(d[1..]);
    }
  }

  /** `xs` arises from `ys` by leaving elements out. */
  ghost predicate IsSubsequence<E>(xs: seq<E>, ys: seq<E>) {
    xs == []
    || (ys != [] && ((xs[0] == ys[0] && IsSubsequence(xs[1..], ys[1..])) || IsSubsequence(xs, ys[1..])))
  }

  lemma {:induction false} SelectIsSubsequence<E>(d: seq<Departure<E>>, fate: Fate, more: seq<E>)
    ensures IsSubsequence(Select(d, fate), Events(d) + more)
  {
    if d != [] {
      SelectIsSubsequence(d[1..], fate, more);
      assert (Events(d) + more)[1..] == Events(d[1..]) + more;
      assert (Events(d) + more)[0] == d[0].event;
      if d[0].fate == fate {
        assert Select(d, fate)[1..] == Select(d[1..], fate);
      }
    }
  }

  // ---------------------------------------------------------------- the invariant

  /** The flush has left the chain but not ended. */
  ghost predicate Active<E>(f: Flush<E>) {
    f.Sending? || f.Pausing? || f.BetweenBatches?
  }

  /** Flushes run one after the other in the order in which they were called. */
  ghost predicate Serialized<E>(flushes: seq<Flush<E>>) {
    forall i, j | 0 <= i < j < |flushes| && !flushes[j].Chained? :: flushes[i].Settled?
  }

  function BatchOf<E>(f: Flush<E>): seq<E> {
    if f.Sending? || f.Pausing? then f.batch else []
  }

  /** The batch in flight, if any: the one flush that carries it. */
  ghost predicate CarriesInFlight<E>(s: State<E>) {
    && (forall k | 0 <= k < |s.flushes| && BatchOf(s.flushes[k]) != [] ::
          BatchOf(s.flushes[k]) == Select(s.departures, InFlight))
    && ((forall k | 0 <= k < |s.flushes| :: BatchOf(s.flushes[k]) == []) ==>
          Select(s.departures, InFlight) == [])
  }

  ghost predicate GoodFlush<E>(cfg: Config, f: Flush<E>) {
    f.Sending? || f.Pausing? ==>
      && |f.batch| <= (if cfg.batchSize >= 1 then cfg.batchSize else 0)
      && (cfg.batchSize >= 1 ==> f.batch != [])
      && 1 <= f.attempt <= cfg.maxAttempts
      && (f.Pausing? ==> f.attempt < cfg.maxAttempts)
      && 2 * f.waited == 100 * f.attempt * (f.attempt - 1)
  }

  ghost predicate Counted<E>(s: State<E>) {
    && s.dropped == |Select(s.departures, Dropped)|
    && s.flushed == |Select(s.departures, Flushed)|
    && s.failed == |Select(s.departures, Failed)|
    && Select(s.departures, Forgotten) == []
    && s.stored == Select(s.departures, Flushed)
  }

  ghost predicate ClosesProperly<E>(s: State<E>) {
    && (s.closed <==> s.closer.Some?)
    && (s.closer.Some? ==>
          && s.closer.value < |s.flushes|
          && (s.flushes[s.closer.value].Settled? ==> s.queue == []))
  }

  ghost predicate Inv<E>(cfg: Config, s: State<E>) {
    && s.accepted == Events(s.departures) + s.queue
    && InOrder(s.departures)
    && Counted(s)
    && Serialized(s.flushes)
    && CarriesInFlight(s)
    && |s.queue| <= cfg.maxQueueSize
    && (forall k | 0 <= k < |s.flushes| :: GoodFlush(cfg, s.flushes[k]))
    && ClosesProperly(s)
  }

  // ---------------------------------------------------------------- every step keeps it

  lemma {:induction false} NothingInFlight<E>(d: seq<Departure<E>>)
    requires Select(d, InFlight) == []
    ensures forall i | 0 <= i < |d| :: d[i].fate != InFlight
  {
    if d != [] {
      NothingInFlight(d[1..]);
    }
  }

  lemma SelectLeaving<E>(d: seq<Departure<E>>, events: seq<E>, fate: Fate, f: Fate)
    ensures Select(d + Marked(events, fate), f) == Select(d, f) + (if f == fate then events else [])
  {
    SelectConcat(d, Marked(events, fate), f);
    SelectMarked(events, fate, f);
  }

  lemma EventsLeaving<E>(d: seq<Departure<E>>, events: seq<E>, fate: Fate)
    ensures Events(d + Marked(events, fate)) == Events(d) + events
  {}

  lemma OrderLeaving<E>(d: seq<Departure<E>>, events: seq<E>, fate: Fate)
    requires InOrder(d) && (fate == Dropped || (fate == InFlight && Select(d, InFlight) == []))
    ensures InOrder(d + Marked(events, fate))
  {
    if fate == InFlight {
      NothingInFlight(d);
    }
  }

  /** Events that leave the queue are appended to the history under their fate. */
  lemma Leaves<E>(d: seq<Departure<E>>, events: seq<E>, fate: Fate)
    requires InOrder(d) && (fate == Dropped || (fate == InFlight && Select(d, InFlight) == []))
    ensures var e := d + Marked(events, fate);
            && InOrder(e) && Events(e) == Events(d) + events
            && Select(e, fate) == Select(d, fate) + events
            && forall f | f != fate :: Select(e, f) == Select(d, f)
  {
    EventsLeaving(d, events, fate);
    OrderLeaving(d, events, fate);
    forall f ensures Select(d + Marked(events, fate), f) == Select(d, f) + (if f == fate then events else []) {
      SelectLeaving(d, events, fate, f);
    }
  }

  /** The oldest event leaves as dropped and the new one joins the queue. */
  lemma DropAndJoin<E>(d: seq<Departure<E>>, queue: seq<E>, e: E)
    requires InOrder(d) && queue != []
    ensures var u := d + Marked([queue[0]], Dropped);
            && InOrder(u) && Events(u) + (queue[1..] + [e]) == (Events(d) + queue) + [e]
            && |Select(u, Dropped)| == |Select(d, Dropped)| + 1
            && forall f | f != Dropped :: Select(u, f) == Select(d, f)
  {
    Leaves(d, [queue[0]], Dropped);
    assert queue == [queue[0]] + queue[1..];
    assert (Events(d) + queue) + [e] == (Events(d) + [queue[0]]) + (queue[1..] + [e]);
  }

  lemma FullQueueKeepsInv<E>(cfg: Config, s: State<E>, e: E)
    requires Accounts(cfg) && Inv(cfg, s) && !s.closed && |s.queue| >= cfg.maxQueueSize
    ensures Inv(cfg, Recorded(cfg, s, e))
  {
    DropAndJoin(s.departures, s.queue, e);
    var u := Recorded(cfg, s, e);
    assert u.departures == s.departures + Marked([s.queue[0]], Dropped);
    assert CarriesInFlight(u) && Counted(u);
  }

  lemma RecordKeepsInv<E>(cfg: Config, s: State<E>, e: E)
    requires Accounts(cfg) && Inv(cfg, s)
    ensures Inv(cfg, Recorded(cfg, s, e))
  {
    if s.closed {
    } else if |s.queue| >= cfg.maxQueueSize {
      FullQueueKeepsInv(cfg, s, e);
    } else {
      assert Events(s.departures) + s.queue + [e] == Events(s.departures) + (s.queue + [e]);
    }
  }

  /** One more flush at the end of the chain. */
  lemma ChainGrows<E>(cfg: Config, s: State<E>)
    requires Inv(cfg, s)
    ensures var u := s.(flushes := s.flushes + [Chained]);
            && Serialized(u.flushes) && CarriesInFlight(u)
            && (forall k | 0 <= k < |u.flushes| :: GoodFlush(cfg, u.flushes[k]))
            && (s.closer.Some? ==> u.flushes[s.closer.value] == s.flushes[s.closer.value])
  {
    var fs := s.flushes + [Chained];
    assert forall k | 0 <= k < |s.flushes| :: fs[k] == s.flushes[k];
    assert BatchOf(fs[|s.flushes|]) == [];
  }

  lemma StartKeepsInv<E>(cfg: Config, s: State<E>, close: bool)
    requires Inv(cfg, s) && (close ==> !s.closed)
    ensures Inv(cfg, if close then Apply(cfg, s, Close) else Apply(cfg, s, StartFlush))
  {
    ChainGrows(cfg, s);
    var u := if close then Apply(cfg, s, Close) else Apply(cfg, s, StartFlush);
    assert CarriesInFlight(u) by { assert u.flushes == s.flushes + [Chained]; }
  }

  /** When the k-th flush is about to look at the queue, no batch is in flight anywhere. */
  lemma NobodyElseIsActive<E>(cfg: Config, s: State<E>, k: nat)
    requires Inv(cfg, s) && Enabled(cfg, s, Proceed(k))
    ensures forall i | 0 <= i < k :: s.flushes[i].Settled?
    ensures forall j | k < j < |s.flushes| :: s.flushes[j].Chained?
    ensures Select(s.departures, InFlight) == []
  {
    forall i | 0 <= i < k ensures s.flushes[i].Settled? {
      if i < k - 1 {
        assert s.flushes[k].BetweenBatches? || !s.flushes[k - 1].Chained?;
      }
    }
    assert forall j | 0 <= j < |s.flushes| :: BatchOf(s.flushes[j]) == [];
  }

  /** The chain of flushes after a step of its one active flush. */
  lemma ChainAfterStep<E>(cfg: Config, s: State<E>, u: State<E>, k: nat)
    requires Inv(cfg, s) && k < |s.flushes| == |u.flushes| && u.flushes == s.flushes[k := u.flushes[k]]
    requires forall i | 0 <= i < k :: s.flushes[i].Settled?
    requires forall j | k < j < |s.flushes| :: s.flushes[j].Chained?
    requires GoodFlush(cfg, u.flushes[k]) && BatchOf(u.flushes[k]) == Select(u.departures, InFlight)
    ensures Serialized(u.flushes) && CarriesInFlight(u)
    ensures forall j | 0 <= j < |u.flushes| :: GoodFlush(cfg, u.flushes[j])
  {
    forall j | 0 <= j < |u.flushes| && j != k ensures BatchOf(u.flushes[j]) == [] && GoodFlush(cfg, u.flushes[j]) {
      assert u.flushes[j] == s.flushes[j];
    }
  }

  /** Without attempts nothing is taken, because the batch size is then below one. */
  lemma EmptyTake<E>(cfg: Config, s: State<E>, k: nat)
    requires cfg.batchSize < 1 && cfg.maxAttempts < 1 && k < |s.flushes| && s.queue != []
    ensures Looped(cfg, s, k) == s.(flushes := s.flushes[k := BetweenBatches])
  {
    assert s.queue[0..] == s.queue && s.queue[..0] == [];
    assert Marked(s.queue[..0], Forgotten) == [];
    assert s.departures + [] == s.departures;
  }

  lemma EmptyTakeKeepsInv<E>(cfg: Config, s: State<E>, k: nat)
    requires Accounts(cfg) && Inv(cfg, s) && Enabled(cfg, s, Proceed(k)) && s.queue != [] && cfg.maxAttempts < 1
    ensures Inv(cfg, s.(flushes := s.flushes[k := BetweenBatches]))
  {
    NobodyElseIsActive(cfg, s, k);
    ChainAfterStep(cfg, s, s.(flushes := s.flushes[k := BetweenBatches]), k);
  }

  lemma TakeKeepsInv<E>(cfg: Config, s: State<E>, k: nat)
    requires Accounts(cfg) && Inv(cfg, s) && Enabled(cfg, s, Proceed(k)) && s.queue != []
    ensures Inv(cfg, Looped(cfg, s, k))
  {
    if cfg.maxAttempts < 1 {
      EmptyTakeKeepsInv(cfg, s, k);
      EmptyTake(cfg, s, k);
    } else {
      NobodyElseIsActive(cfg, s, k);
      var u := Looped(cfg, s, k);
      var n := Take(cfg, |s.queue|);
      Leaves(s.departures, s.queue[..n], InFlight);
      SplitHistory(Events(s.departures), s.queue, n);
      assert BatchOf(u.flushes[k]) == Select(u.departures, InFlight);
      ChainAfterStep(cfg, s, u, k);
    }
  }

  lemma SplitHistory<E>(past: seq<E>, queue: seq<E>, n: nat)
    requires n <= |queue|
    ensures past + queue == (past + queue[..n]) + queue[n..]
    ensures [] + queue[..n] == queue[..n]
  {}

  lemma ProceedKeepsInv<E>(cfg: Config, s: State<E>, k: nat)
    requires Accounts(cfg) && Inv(cfg, s) && Enabled(cfg, s, Proceed(k))
    ensures Inv(cfg, Looped(cfg, s, k))
  {
    if s.queue == [] {
      NobodyElseIsActive(cfg, s, k);
      ChainAfterStep(cfg, s, Looped(cfg, s, k), k);
    } else {
      TakeKeepsInv(cfg, s, k);
    }
  }

  lemma SettledHistory<E>(s: State<E>, fate: Fate)
    requires InOrder(s.departures) && fate in {Flushed, Failed}
    ensures var d := Resolve(s.departures, fate);
            && InOrder(d) && Events(d) == Events(s.departures)
            && Select(d, InFlight) == []
            && Select(d, fate) == Select(s.departures, fate) + Select(s.departures, InFlight)
            && forall f | f != fate && f != InFlight :: Select(d, f) == Select(s.departures, f)
  {
    forall f ensures Select(Resolve(s.departures, fate), f)
      == if f == InFlight then [] else if f == fate then Select(s.departures, fate) + Select(s.departures, InFlight)
         else Select(s.departures, f)
    {
      SelectResolved(s.departures, fate, f);
    }
  }

  /** The flush that sends or pauses is the only one that is neither settled nor waiting, and
      its batch is what is in flight. */
  lemma OnlyCarrier<E>(cfg: Config, s: State<E>, k: nat)
    requires Inv(cfg, s) && k < |s.flushes| && (s.flushes[k].Sending? || s.flushes[k].Pausing?)
    ensures forall i | 0 <= i < k :: s.flushes[i].Settled?
    ensures forall j | k < j < |s.flushes| :: s.flushes[j].Chained?
    ensures BatchOf(s.flushes[k]) == Select(s.departures, InFlight)
  {
    if BatchOf(s.flushes[k]) == [] {
      assert forall j | 0 <= j < |s.flushes| :: BatchOf(s.flushes[j]) == [];
    }
  }

  lemma SucceedKeepsInv<E>(cfg: Config, s: State<E>, k: nat)
    requires Accounts(cfg) && Inv(cfg, s) && Enabled(cfg, s, Succeed(k))
    ensures Inv(cfg, Apply(cfg, s, Succeed(k)))
  {
    assert GoodFlush(cfg, s.flushes[k]);
    OnlyCarrier(cfg, s, k);
    SettledHistory(s, Flushed);
    ChainAfterStep(cfg, s, Apply(cfg, s, Succeed(k)), k);
  }

  lemma FaultKeepsInv<E>(cfg: Config, s: State<E>, k: nat)
    requires Accounts(cfg) && Inv(cfg, s) && Enabled(cfg, s, Fault(k))
    ensures Inv(cfg, Apply(cfg, s, Fault(k)))
  {
    assert GoodFlush(cfg, s.flushes[k]);
    OnlyCarrier(cfg, s, k);
    if s.flushes[k].attempt == cfg.maxAttempts {
      SettledHistory(s, Failed);
    }
    ChainAfterStep(cfg, s, Apply(cfg, s, Fault(k)), k);
  }

  lemma WakeKeepsInv<E>(cfg: Config, s: State<E>, k: nat)
    requires Accounts(cfg) && Inv(cfg, s) && Enabled(cfg, s, Wake(k))
    ensures Inv(cfg, Apply(cfg, s, Wake(k)))
  {
    assert GoodFlush(cfg, s.flushes[k]);
    OnlyCarrier(cfg, s, k);
    var a := s.flushes[k].attempt;
    NextPause(a);
    ChainAfterStep(cfg, s, Apply(cfg, s, Wake(k)), k);
  }

  lemma NextPause(a: nat)
    ensures 100 * a * (a - 1) + 2 * (100 * a) == 100 * (a + 1) * a
  {}

  /** Every step keeps the invariant, when there is room for an event and batches that are not
      empty are attempted. */
  lemma StepKeepsInv<E>(cfg: Config, s: State<E>, a: Action<E>)
    requires Accounts(cfg) && Inv(cfg, s) && Enabled(cfg, s, a)
    ensures Inv(cfg, Apply(cfg, s, a))
  {
    match a
    case Record(e) => RecordKeepsInv(cfg, s, e);
    case StartFlush => StartKeepsInv(cfg, s, false);
    case Close => if !s.closed { StartKeepsInv(cfg, s, true); }
    case Proceed(k) => ProceedKeepsInv(cfg, s, k);
    case Succeed(k) => SucceedKeepsInv(cfg, s, k);
    case Fault(k) => FaultKeepsInv(cfg, s, k);
    case Wake(k) => WakeKeepsInv(cfg, s, k);
  }

  ghost predicate IsRun<E>(cfg: Config, states: seq<State<E>>, actions: seq<Action<E>>) {
    && |states| == |actions| + 1 && states[0] == Empty()
    && forall i | 0 <= i < |actions| :: StepAt(cfg, states, actions, i)
  }

  ghost predicate StepAt<E>(cfg: Config, states: seq<State<E>>, actions: seq<Action<E>>, i: nat)
    requires |states| == |actions| + 1 && i < |actions|
  {
    IsStep(cfg, states[i], actions[i], states[i + 1])
  }

  ghost predicate IsStep<E>(cfg: Config, s: State<E>, a: Action<E>, u: State<E>) {
    Enabled(cfg, s, a) && u == Apply(cfg, s, a)
  }

  lemma {:induction false} RunKeepsInv<E>(cfg: Config, states: seq<State<E>>, actions: seq<Action<E>>, n: nat)
    requires Accounts(cfg) && IsRun(cfg, states, actions) && n < |states|
    ensures Inv(cfg, states[n])
  {
    if n > 0 {
      RunKeepsInv(cfg, states, actions, n - 1);
      assert StepAt(cfg, states, actions, n - 1);
      StepKeepsInv(cfg, states[n - 1], actions[n - 1]);
    }
  }

  // ---------------------------------------------------------------- promises

  /** Every accepted event is in exactly one place. */
  ghost predicate Conserved<E>(s: State<E>) {
    |s.accepted| == |s.queue| + |Select(s.departures, InFlight)| + s.flushed + s.failed + s.dropped
  }

  /** In every interleaving, every accepted event is in exactly one place. */
  lemma EventsAreConserved<E>(cfg: Config, states: seq<State<E>>, actions: seq<Action<E>>, n: nat)
    requires Accounts(cfg) && IsRun(cfg, states, actions) && n < |states|
    ensures Conserved(states[n])
  {
    RunKeepsInv(cfg, states, actions, n);
    FatesAddUp(states[n].departures);
  }

  ghost predicate AlwaysConserved<E(!new)>(cfg: Config) {
    forall states: seq<State<E>>, actions: seq<Action<E>>, n: nat | IsRun(cfg, states, actions) && n < |states| ::
      Conserved(states[n])
  }

  /** The counters add up in every run exactly when there is room for an event and a batch that
      is not empty is attempted. */
  lemma ConservationNeedsRoomAndAttempts<E(!new)>(cfg: Config, e: E)
    ensures AlwaysConserved<E>(cfg) <==> Accounts(cfg)
  {
    if Accounts(cfg) {
      forall states: seq<State<E>>, actions: seq<Action<E>>, n: nat | IsRun(cfg, states, actions) && n < |states|
        ensures Conserved(states[n])
      {
        EventsAreConserved(cfg, states, actions, n);
      }
    } else {
      var s1 := Apply(cfg, Empty(), Record(e));
      assert IsStep(cfg, Empty(), Record(e), s1);
      if cfg.maxQueueSize < 1 {
        ZeroCapacityMiscounts(cfg, e);
        assert IsRun(cfg, [Empty(), s1], [Record(e)]);
        assert !Conserved([Empty(), s1][1]);
      } else {
        var s2 := Apply(cfg, s1, StartFlush);
        var s3 := Apply(cfg, s2, Proceed(0));
        ZeroAttemptsForget(cfg, e);
        assert IsStep(cfg, s1, StartFlush, s2) && IsStep(cfg, s2, Proceed(0), s3);
        assert IsRun(cfg, [Empty(), s1, s2, s3], [Record(e), StartFlush, Proceed(0)]);
        assert !Conserved([Empty(), s1, s2, s3][3]);
      }
    }
  }

  /** Events leave the queue exactly in the order in which they were accepted, so the stored
      events are an ordered selection of them. */
  lemma OrderIsKept<E>(cfg: Config, states: seq<State<E>>, actions: seq<Action<E>>, n: nat)
    requires Accounts(cfg) && IsRun(cfg, states, actions) && n < |states|
    ensures Events(states[n].departures) <= states[n].accepted
    ensures IsSubsequence(states[n].stored, states[n].accepted)
    ensures |states[n].stored| == states[n].flushed
  {
    RunKeepsInv(cfg, states, actions, n);
    SelectIsSubsequence(states[n].departures, Flushed, states[n].queue);
  }

  /** There are never two batches in flight, batches and queue stay within their sizes, and a
      batch has waited 100 * a * (a - 1) / 2 ms before its a-th attempt, which is at most the
      last one allowed. */
  lemma DeliveryIsSerial<E>(cfg: Config, states: seq<State<E>>, actions: seq<Action<E>>, n: nat, j: nat, k: nat)
    requires ValidConfig(cfg) && IsRun(cfg, states, actions) && n < |states|
    requires j < |states[n].flushes| && k < |states[n].flushes|
    requires Active(states[n].flushes[j]) && Active(states[n].flushes[k])
    ensures j == k
    ensures |states[n].queue| <= cfg.maxQueueSize
    ensures var f := states[n].flushes[k];
            f.Sending? || f.Pausing? ==>
              && 1 <= |f.batch| <= cfg.batchSize && 1 <= f.attempt <= cfg.maxAttempts
              && 2 * f.waited == 100 * f.attempt * (f.attempt - 1)
              && 2 * f.waited <= 100 * cfg.maxAttempts * (cfg.maxAttempts - 1)
  {
    RunKeepsInv(cfg, states, actions, n);
    var f := states[n].flushes[k];
    assert GoodFlush(cfg, f);
    if f.Sending? || f.Pausing? {
      PauseIsMonotone(f.attempt, cfg.maxAttempts);
    }
  }

  lemma PauseIsMonotone(a: nat, m: nat)
    requires 1 <= a <= m
    ensures 100 * a * (a - 1) <= 100 * m * (m - 1)
  {
    assert a * (a - 1) <= m * (m - 1);
  }

  // ---------------------------------------------------------------- what is not promised

  /** With no attempt allowed, a batch is taken from the queue and counted nowhere. */
  lemma ZeroAttemptsForget<E>(cfg: Config, e: E)
    requires cfg.maxQueueSize >= 1 && cfg.batchSize >= 1 && cfg.maxAttempts < 1
    ensures var s1 := Apply(cfg, Empty(), Record(e));
            var s2 := Apply(cfg, s1, StartFlush);
            Enabled(cfg, s2, Proceed(0)) &&
            var s3 := Apply(cfg, s2, Proceed(0));
            && |s3.accepted| == 1 && s3.queue == []
            && s3.flushed + s3.failed + s3.dropped + |Select(s3.departures, InFlight)| == 0
  {
    SelectMarked([e], Forgotten, InFlight);
  }

  /** With no room in the queue, an event that is queued is counted as dropped as well. */
  lemma ZeroCapacityMiscounts<E>(cfg: Config, e: E)
    requires cfg.maxQueueSize < 1
    ensures var s := Apply(cfg, Empty(), Record(e));
            |s.accepted| == 1 && s.queue == [e] && s.dropped == 1
  {}
}
