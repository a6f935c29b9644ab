/** The sink as it is written: fields changed in place, a retry loop and a drain loop. */
module BufferedAuditSinks {
  import opened Wrappers
  import opened AuditSinks

  /** The number of the first attempt that the event table accepts. */
  function FirstSuccess(accepts: nat -> bool, attempt: nat, maxAttempts: nat): Option<nat>
    decreases maxAttempts + 1 - attempt
  {
    if attempt > maxAttempts then None
    else if accepts(attempt) then Some(attempt)
    else FirstSuccess(accepts, attempt + 1, maxAttempts)
  }

  /** The pauses before a given attempt. */
  function PauseBefore(attempt: nat): nat {
    if attempt <= 1 then 0 else PauseBefore(attempt - 1) + 100 * (attempt - 1)
  }

  lemma {:induction false} PauseIsQuadratic(attempt: nat)
    requires attempt >= 1
    ensures 2 * PauseBefore(attempt) == 100 * attempt * (attempt - 1)
  {
    if attempt > 1 {
      PauseIsQuadratic(attempt - 1);
      assert 100 * (attempt - 1) * (attempt - 2) + 200 * (attempt - 1) == 100 * attempt * (attempt - 1);
    }
  }

  /** A first success lies among the attempts allowed, and every attempt before it failed. */
  lemma {:induction false} FirstSuccessIsFirst(accepts: nat -> bool, attempt: nat, maxAttempts: nat)
    ensures match FirstSuccess(accepts, attempt, maxAttempts)
            case Some(a) =>
              attempt <= a <= maxAttempts && accepts(a) && forall i: nat | attempt <= i < a :: !accepts(i)
            case None => forall i: nat | attempt <= i <= maxAttempts :: !accepts(i)
    decreases maxAttempts + 1 - attempt
  {
    if attempt <= maxAttempts && !accepts(attempt) {
      FirstSuccessIsFirst(accepts, attempt + 1, maxAttempts);
    }
  }

  // ---------------------------------------------------------------- events that keep arriving

  /** Events that arrive while the sink waits, one list for each batch in turn. */
  function Now<E>(arrivals: seq<seq<E>>): seq<E> {
    if arrivals == [] then [] else arrivals[0]
  }

  function Later<E>(arrivals: seq<seq<E>>): seq<seq<E>> {
    if arrivals == [] then [] else arrivals[1..]
  }

  function Flat<E>(arrivals: seq<seq<E>>): seq<E> {
    if arrivals == [] then [] else arrivals[0] + Flat(arrivals[1..])
  }

  /** What a bounded queue keeps. */
  function Newest<E>(queue: seq<E>, capacity: nat): seq<E> {
    if |queue| <= capacity then queue else queue[|queue| - capacity..]
  }

  function AllRecorded<E>(cfg: Config, s: State<E>, events: seq<E>): State<E>
    decreases events
  {
    if events == [] then s else AllRecorded(cfg, Recorded(cfg, s, events[0]), events[1..])
  }

  lemma NewestTwice<E>(queue: seq<E>, more: seq<E>, capacity: nat)
    ensures Newest(Newest(queue, capacity) + more, capacity) == Newest(queue + more, capacity)
  {
    var dropped := |queue| - |Newest(queue, capacity)|;
    assert Newest(queue, capacity) + more == (queue + more)[dropped..];
    if |queue + more| > capacity {
      var all := |queue + more| - capacity;
      assert (queue + more)[dropped..][all - dropped..] == (queue + more)[all..];
    }
  }

  /** Recording keeps the newest events, and counts those it had to drop. */
  lemma {:induction false} RecordingKeepsTheNewest<E>(cfg: Config, s: State<E>, events: seq<E>)
    requires cfg.maxQueueSize >= 1 && |s.queue| <= cfg.maxQueueSize && !s.closed
    ensures var u := AllRecorded(cfg, s, events);
            && u.queue == Newest(s.queue + events, cfg.maxQueueSize)
            && u.accepted == s.accepted + events
            && u.dropped + |u.queue| == s.dropped + |s.queue| + |events|
    decreases events
  {
    if events == [] {
      assert s.queue + events == s.queue && s.accepted + events == s.accepted;
    } else {
      var t := Recorded(cfg, s, events[0]);
      assert t.queue == Newest(s.queue + [events[0]], cfg.maxQueueSize);
      RecordingKeepsTheNewest(cfg, t, events[1..]);
      NewestTwice(s.queue + [events[0]], events[1..], cfg.maxQueueSize);
      assert events == [events[0]] + events[1..];
      Regroup(s.queue, [events[0]], events[1..]);
      Regroup(s.accepted, [events[0]], events[1..]);
    }
  }

  lemma {:induction false} RecordingTouchesNoFlush<E>(cfg: Config, s: State<E>, events: seq<E>)
    ensures var u := AllRecorded(cfg, s, events);
            && u == s.(queue := u.queue, dropped := u.dropped, accepted := u.accepted, departures := u.departures)
            && (s.closed || events == [] ==> u == s)
    decreases events
  {
    if events != [] {
      RecordingTouchesNoFlush(cfg, Recorded(cfg, s, events[0]), events[1..]);
    }
  }

  lemma {:induction false} RecordingKeepsInv<E>(cfg: Config, s: State<E>, events: seq<E>)
    requires Accounts(cfg) && Inv(cfg, s)
    ensures Inv(cfg, AllRecorded(cfg, s, events))
    decreases events
  {
    if events != [] {
      RecordKeepsInv(cfg, s, events[0]);
      RecordingKeepsInv(cfg, Recorded(cfg, s, events[0]), events[1..]);
    }
  }

  /** The events that a drain stores, when batch number b is accepted or not and events arrive
      while each batch is delivered. */
  function Stored<E>(cfg: Config, queue: seq<E>, arrivals: seq<seq<E>>, accepted: nat -> bool, b: nat): seq<E>
    requires ValidConfig(cfg)
    decreases |arrivals|, |queue|
  {
    if queue == [] then []
    else
      var n := Take(cfg, |queue|);
      (if accepted(b) then queue[..n] else [])
      + Stored(cfg, Newest(queue[n..] + Now(arrivals), cfg.maxQueueSize), Later(arrivals), accepted, b + 1)
  }

  /** What a drain stores are events of the queue and of the arrivals, in order. */
  lemma {:induction false} StoredIsASelection<E>(
    cfg: Config, queue: seq<E>, arrivals: seq<seq<E>>, accepted: nat -> bool, b: nat)
    requires ValidConfig(cfg)
    ensures IsSubsequence(Stored(cfg, queue, arrivals, accepted, b), queue + Flat(arrivals))
    decreases |arrivals|, |queue|
  {
    if queue != [] {
      var n, now, flat := Take(cfg, |queue|), Now(arrivals), Flat(Later(arrivals));
      var left := queue[n..] + now;
      var kept := Newest(left, cfg.maxQueueSize);
      var stored := Stored(cfg, kept, Later(arrivals), accepted, b + 1);
      StoredIsASelection(cfg, kept, Later(arrivals), accepted, b + 1);
      SelectionGrows(queue[..n], left, |left| - |kept|, flat, stored, accepted(b));
      JoinAgain(queue, n, now, flat);
      FlatUnfolds(arrivals);
    }
  }

  lemma SelectionGrows<E>(batch: seq<E>, left: seq<E>, skipped: nat, flat: seq<E>, stored: seq<E>, keep: bool)
    requires skipped <= |left| && IsSubsequence(stored, left[skipped..] + flat)
    ensures IsSubsequence((if keep then batch else []) + stored, batch + (left + flat))
  {
    SkipFront(left, skipped, flat, stored);
    KeepOrSkip(batch, stored, left + flat, keep);
  }

  lemma SkipFront<E>(left: seq<E>, skipped: nat, flat: seq<E>, stored: seq<E>)
    requires skipped <= |left| && IsSubsequence(stored, left[skipped..] + flat)
    ensures IsSubsequence(stored, left + flat)
  {
    KeepOrSkip(left[..skipped], stored, left[skipped..] + flat, false);
    assert [] + stored == stored;
    assert left[..skipped] + (left[skipped..] + flat) == left + flat;
  }

  lemma JoinAgain<E>(queue: seq<E>, n: nat, now: seq<E>, flat: seq<E>)
    requires n <= |queue|
    ensures queue[..n] + ((queue[n..] + now) + flat) == queue + (now + flat)
  {
    assert queue[..n] + queue[n..] == queue;
  }

  lemma FlatUnfolds<E>(arrivals: seq<seq<E>>)
    ensures Flat(arrivals) == Now(arrivals) + Flat(Later(arrivals))
  {}

  lemma {:induction false} KeepOrSkip<E>(head: seq<E>, xs: seq<E>, ys: seq<E>, keep: bool)
    requires IsSubsequence(xs, ys)
    ensures IsSubsequence((if keep then head else []) + xs, head + ys)
  {
    if head == [] {
      assert head + ys == ys && [] + xs == xs && head + xs == xs;
    } else {
      KeepOrSkip(head[1..], xs, ys, keep);
      assert (head + ys)[1..] == head[1..] + ys;
      if keep {
        assert (head + xs)[1..] == head[1..] + xs;
      }
    }
  }

  class BufferedAuditSink<E> {
    const cfg: Config
    var queue: seq<E>
    var closed: bool
    var flushed: nat
    var failed: nat
    var dropped: nat
    /** The chain of flushes that `flushPromise` heads, and the first `close` among them. */
    var flushes: seq<Flush<E>>
    var closer: Option<nat>
    ghost var accepted: seq<E>
    ghost var departures: seq<Departure<E>>
    ghost var stored: seq<E>

    ghost function Value(): State<E>
      reads this
    {
      State(queue, closed, flushed, failed, dropped, flushes, closer, accepted, departures, stored)
    }

    constructor (cfg: Config)
      ensures this.cfg == cfg && Value() == Empty()
    {
      this.cfg := cfg;
      queue, closed, flushed, failed, dropped := [], false, 0, 0, 0;
      flushes, closer := [], None;
      accepted, departures, stored := [], [], [];
    }

    method Record(event: E)
      modifies this
      ensures Value() == Apply(cfg, old(Value()), Action.Record(event))
    {
      if closed { return; }
      if |queue| >= cfg.maxQueueSize {
        departures := departures + Marked(if queue == [] then [] else [queue[0]], Dropped);
        queue := if queue == [] then [] else queue[1..];
        dropped := dropped + 1;
      }
      queue := queue + [event];
      accepted := accepted + [event];
    }

    method Flush()
      modifies this
      ensures Value() == Apply(cfg, old(Value()), StartFlush)
    {
      flushes := flushes + [Chained];
    }

    method Close()
      modifies this
      ensures Value() == Apply(cfg, old(Value()), Action.Close)
    {
      if closed { return; }
      closed := true;
      closer := Some(|flushes|);
      Flush();
    }

    /** The part of `flush` from one look at the queue to the next await. */
    method TakeBatch(k: nat) returns (batch: seq<E>)
      requires Enabled(cfg, Value(), Proceed(k)) && ValidConfig(cfg)
      modifies this
      ensures Value() == Apply(cfg, old(Value()), Proceed(k))
      ensures batch == BatchOf(flushes[k])
    {
      if |queue| == 0 {
        flushes := flushes[k := Settled];
        return [];
      }
      var n := Take(cfg, |queue|);
      batch := queue[..n];
      queue := queue[n..];
      departures := departures + Marked(batch, InFlight);
      flushes := flushes[k := Sending(batch, 1, 0)];
    }

    /** `deliver` after the insertion of a batch was accepted. */
    method Delivered(k: nat)
      requires Enabled(cfg, Value(), Succeed(k))
      modifies this
      ensures Value() == Apply(cfg, old(Value()), Succeed(k))
    {
      flushed := flushed + |flushes[k].batch|;
      stored := stored + flushes[k].batch;
      departures := Resolve(departures, Flushed);
      flushes := flushes[k := BetweenBatches];
    }

    /** `deliver` after the insertion of a batch threw. */
    method Threw(k: nat)
      requires Enabled(cfg, Value(), Fault(k))
      modifies this
      ensures Value() == Apply(cfg, old(Value()), Fault(k))
    {
      var f := flushes[k];
      if f.attempt == cfg.maxAttempts {
        failed := failed + |f.batch|;
        departures := Resolve(departures, Failed);
        flushes := flushes[k := BetweenBatches];
        return;
      }
      flushes := flushes[k := Pausing(f.batch, f.attempt, f.waited)];
    }

    /** The retry loop, given which attempts the event table accepts. */
    method Deliver(k: nat, accepts: nat -> bool) returns (waited: nat)
      requires ValidConfig(cfg) && k < |flushes| && flushes[k].Sending?
      requires flushes[k].attempt == 1 && flushes[k].waited == 0
      modifies this
      ensures unchanged(`queue, `closed, `dropped, `closer, `accepted)
      ensures flushes == old(flushes)[k := BetweenBatches]
      ensures match FirstSuccess(accepts, 1, cfg.maxAttempts)
              case Some(a) =>
                && flushed == old(flushed) + |old(flushes[k].batch)| && failed == old(failed)
                && stored == old(stored) + old(flushes[k].batch)
                && departures == Resolve(old(departures), Flushed)
                && waited == PauseBefore(a)
              case None =>
                && flushed == old(flushed) && failed == old(failed) + |old(flushes[k].batch)|
                && stored == old(stored)
                && departures == Resolve(old(departures), Failed)
                && waited == PauseBefore(cfg.maxAttempts)
    {
      var batch := flushes[k].batch;
      var attempt := 1;
      while attempt <= cfg.maxAttempts
        invariant 1 <= attempt <= cfg.maxAttempts
        invariant unchanged(`queue, `closed, `dropped, `closer, `accepted, `flushed, `failed, `stored, `departures)
        invariant k < |flushes| && flushes == old(flushes)[k := Sending(batch, attempt, PauseBefore(attempt))]
        invariant FirstSuccess(accepts, 1, cfg.maxAttempts) == FirstSuccess(accepts, attempt, cfg.maxAttempts)
        decreases cfg.maxAttempts - attempt
      {
        if accepts(attempt) {
          Delivered(k);
          return PauseBefore(attempt);
        }
        Threw(k);
        if attempt == cfg.maxAttempts {
          return PauseBefore(attempt);
        }
        flushes := flushes[k := Sending(batch, attempt + 1, PauseBefore(attempt) + 100 * attempt)];
        attempt := attempt + 1;
      }
    }

    method RecordAll(events: seq<E>)
      modifies this
      ensures Value() == AllRecorded(cfg, old(Value()), events)
    {
      for i := 0 to |events|
        invariant AllRecorded(cfg, Value(), events[i..]) == AllRecorded(cfg, old(Value()), events)
      {
        assert events[i..][1..] == events[i + 1..];
        Record(events[i]);
      }
    }

    /** The drain loop of one flush, with events arriving while each batch is delivered; `rest`
        are the arrivals still to come when the loop ends. Every event is stored, dropped or
        counted as failed. */
    method Drain(k: nat, accepts: (nat, nat) -> bool, arrivals: seq<seq<E>>) returns (rest: seq<seq<E>>)
      requires ValidConfig(cfg) && Inv(cfg, Value()) && Enabled(cfg, Value(), Proceed(k))
      modifies this
      ensures Inv(cfg, Value()) && queue == [] && flushes == old(flushes)[k := Settled]
      ensures unchanged(`closed, `closer)
      ensures IsTail(rest, arrivals)
      ensures if closed then accepted == old(accepted)
              else accepted + Flat(rest) == old(accepted) + Flat(arrivals)
      ensures stored == old(stored) + Stored(cfg, old(queue), if closed then [] else arrivals,
                                             Verdicts(accepts, cfg.maxAttempts), 0)
      ensures flushed + failed + dropped + |old(accepted)|
           == old(flushed) + old(failed) + old(dropped) + |old(queue)| + |accepted|
      ensures closed || arrivals == [] ==> dropped == old(dropped)
    {
      ghost var start, verdicts := Value(), Verdicts(accepts, cfg.maxAttempts);
      var b := 0;
      rest := arrivals;
      while |queue| > 0
        invariant Draining(cfg, start, arrivals, Value(), k, verdicts, b, rest)
        decreases |rest|, |queue|
      {
        RoundGoesOn(cfg, start, arrivals, Value(), k, verdicts, b, rest);
        DrainBatch(k, accepts, b, Now(rest));
        rest, b := Later(rest), b + 1;
      }
      DrainingEnds(cfg, start, arrivals, Value(), k, verdicts, b, rest);
      flushes := flushes[k := Settled];
    }

    /** One round of the drain loop. */
    method DrainBatch(k: nat, accepts: (nat, nat) -> bool, b: nat, arriving: seq<E>)
      requires ValidConfig(cfg) && Enabled(cfg, Value(), Proceed(k)) && queue != []
      modifies this
      ensures Value() == Round(cfg, old(Value()), k, Verdicts(accepts, cfg.maxAttempts)(b), arriving)
    {
      var batch := TakeBatch(k);
      RecordingTouchesNoFlush(cfg, Value(), arriving);
      RecordAll(arriving);
      var waited := Deliver(k, AttemptsOf(accepts, b));
    }
  }

  /** What the event table answers to the attempts of batch number b. */
  function AttemptsOf(accepts: (nat, nat) -> bool, b: nat): nat -> bool {
    (attempt: nat) => accepts(b, attempt)
  }

  /** Which batches are stored: those with an attempt that succeeds. */
  ghost function Verdicts(accepts: (nat, nat) -> bool, maxAttempts: int): nat -> bool
    requires maxAttempts >= 1
  {
    (b: nat) => FirstSuccess(AttemptsOf(accepts, b), 1, maxAttempts).Some?
  }

  ghost function AtLastAttempt<E>(cfg: Config, s: State<E>, k: nat): State<E>
    requires ValidConfig(cfg) && k < |s.flushes| && s.flushes[k].Sending?
  {
    var last := Sending(s.flushes[k].batch, cfg.maxAttempts, PauseBefore(cfg.maxAttempts));
    s.(flushes := s.flushes[k := last])
  }

  lemma LastAttemptIsReached<E>(cfg: Config, s: State<E>, k: nat)
    requires ValidConfig(cfg) && Inv(cfg, s) && k < |s.flushes| && s.flushes[k].Sending?
    ensures Inv(cfg, AtLastAttempt(cfg, s, k))
  {
    assert GoodFlush(cfg, s.flushes[k]);
    OnlyCarrier(cfg, s, k);
    PauseIsQuadratic(cfg.maxAttempts);
    ChainAfterStep(cfg, s, AtLastAttempt(cfg, s, k), k);
  }

  /** A batch is taken, and events arrive before it has been stored or given up. */
  ghost function Taken<E>(cfg: Config, s: State<E>, k: nat, arriving: seq<E>): State<E>
    requires ValidConfig(cfg) && Enabled(cfg, s, Proceed(k)) && s.queue != []
    ensures var t := Taken(cfg, s, k, arriving);
            t.flushes == s.flushes[k := Sending(s.queue[..Take(cfg, |s.queue|)], 1, 0)]
  {
    RecordingTouchesNoFlush(cfg, Looped(cfg, s, k), arriving);
    AllRecorded(cfg, Looped(cfg, s, k), arriving)
  }

  /** One round of the drain loop. */
  ghost function Round<E>(cfg: Config, s: State<E>, k: nat, ok: bool, arriving: seq<E>): State<E>
    requires ValidConfig(cfg) && Enabled(cfg, s, Proceed(k)) && s.queue != []
  {
    var t := Taken(cfg, s, k, arriving);
    if ok then Apply(cfg, t, Succeed(k)) else Apply(cfg, AtLastAttempt(cfg, t, k), Fault(k))
  }

  lemma RoundKeepsInv<E>(cfg: Config, s: State<E>, k: nat, ok: bool, arriving: seq<E>)
    requires ValidConfig(cfg) && Inv(cfg, s) && Enabled(cfg, s, Proceed(k)) && s.queue != []
    ensures var u := Round(cfg, s, k, ok, arriving); Inv(cfg, u) && Enabled(cfg, u, Proceed(k))
  {
    var t := Taken(cfg, s, k, arriving);
    ProceedKeepsInv(cfg, s, k);
    RecordingKeepsInv(cfg, Looped(cfg, s, k), arriving);
    if ok {
      SucceedKeepsInv(cfg, t, k);
    } else {
      LastAttemptIsReached(cfg, t, k);
      FaultKeepsInv(cfg, AtLastAttempt(cfg, t, k), k);
    }
  }

  /** The batch is stored or counted as failed; of the rest the newest stay. */
  lemma RoundStores<E>(cfg: Config, s: State<E>, k: nat, ok: bool, arriving: seq<E>)
    requires ValidConfig(cfg) && Enabled(cfg, s, Proceed(k)) && s.queue != [] && |s.queue| <= cfg.maxQueueSize
    ensures var u, n := Round(cfg, s, k, ok, arriving), Take(cfg, |s.queue|);
            var came := if s.closed then [] else arriving;
            && u.flushes == s.flushes[k := BetweenBatches] && u.closed == s.closed && u.closer == s.closer
            && u.queue == Newest(s.queue[n..] + came, cfg.maxQueueSize)
            && u.accepted == s.accepted + came
            && u.stored == s.stored + (if ok then s.queue[..n] else [])
            && u.flushed + u.failed + u.dropped + |u.queue|
               == s.flushed + s.failed + s.dropped + |s.queue| + |came|
            && (came == [] ==> u.dropped == s.dropped)
  {
    var looped, t := Looped(cfg, s, k), Taken(cfg, s, k, arriving);
    RecordingTouchesNoFlush(cfg, looped, arriving);
    if s.closed {
      assert s.queue[Take(cfg, |s.queue|)..] + [] == s.queue[Take(cfg, |s.queue|)..];
      assert s.accepted + [] == s.accepted;
    } else {
      RecordingKeepsTheNewest(cfg, looped, arriving);
    }
    assert s.stored + [] == s.stored;
    var last := Sending(t.flushes[k].batch, cfg.maxAttempts, PauseBefore(cfg.maxAttempts));
    UpdatedTwice(s.flushes, k, t.flushes[k], last);
    UpdatedTwice(s.flushes, k, t.flushes[k], BetweenBatches);
    UpdatedTwice(s.flushes, k, last, BetweenBatches);
  }

  ghost predicate IsTail<T>(xs: seq<T>, ys: seq<T>) {
    |xs| <= |ys| && xs == ys[|ys| - |xs|..]
  }

  lemma TailOfTail<E>(xs: seq<seq<E>>, ys: seq<seq<E>>)
    requires IsTail(xs, ys)
    ensures IsTail(Later(xs), ys)
  {}

  /** The arrivals that a sink takes in: a closed one takes none. */
  function Offered<E>(s: State<E>, arrivals: seq<seq<E>>): seq<seq<E>> {
    if s.closed then [] else arrivals
  }

  /** What the drain loop keeps: `start` is the state before it, `b` batches are done, and
      `rest` of the arrivals is still to come. */
  ghost predicate Draining<E>(
    cfg: Config, start: State<E>, arrivals: seq<seq<E>>, s: State<E>, k: nat, verdicts: nat -> bool, b: nat,
    rest: seq<seq<E>>)
    requires ValidConfig(cfg)
  {
    && Inv(cfg, s) && Enabled(cfg, s, Proceed(k))
    && k < |start.flushes| && s.flushes == start.flushes[k := s.flushes[k]]
    && s.closed == start.closed && s.closer == start.closer && IsTail(rest, arrivals)
    && s.accepted + Flat(Offered(s, rest)) == start.accepted + Flat(Offered(start, arrivals))
    && s.stored + Stored(cfg, s.queue, Offered(s, rest), verdicts, b)
       == start.stored + Stored(cfg, start.queue, Offered(start, arrivals), verdicts, 0)
    && s.flushed + s.failed + s.dropped + |s.queue| + |start.accepted|
       == start.flushed + start.failed + start.dropped + |start.queue| + |s.accepted|
    && (Offered(start, arrivals) == [] ==> s.dropped == start.dropped)
  }

  lemma RoundGoesOn<E>(
    cfg: Config, start: State<E>, arrivals: seq<seq<E>>, s: State<E>, k: nat, verdicts: nat -> bool, b: nat,
    rest: seq<seq<E>>)
    requires ValidConfig(cfg) && Draining(cfg, start, arrivals, s, k, verdicts, b, rest) && s.queue != []
    ensures var u := Round(cfg, s, k, verdicts(b), Now(rest));
            && Draining(cfg, start, arrivals, u, k, verdicts, b + 1, Later(rest))
            && (rest == [] ==> |u.queue| < |s.queue|)
  {
    RoundKeepsInv(cfg, s, k, verdicts(b), Now(rest));
    RoundStores(cfg, s, k, verdicts(b), Now(rest));
    StoredUnfolds(cfg, s.stored, s.queue, Offered(s, rest), verdicts, b);
    FlatUnfolds(Offered(s, rest));
    Regroup(s.accepted, Now(Offered(s, rest)), Flat(Later(Offered(s, rest))));
    TailOfTail(rest, arrivals);
    UpdatedTwice(start.flushes, k, s.flushes[k], BetweenBatches);
  }

  lemma DrainingEnds<E>(
    cfg: Config, start: State<E>, arrivals: seq<seq<E>>, s: State<E>, k: nat, verdicts: nat -> bool, b: nat,
    rest: seq<seq<E>>)
    requires ValidConfig(cfg) && Draining(cfg, start, arrivals, s, k, verdicts, b, rest) && s.queue == []
    ensures Inv(cfg, s.(flushes := s.flushes[k := Settled]))
    ensures s.flushes[k := Settled] == start.flushes[k := Settled]
    ensures s.accepted + Flat(Offered(s, rest)) == start.accepted + Flat(Offered(start, arrivals))
    ensures s.closed ==> s.accepted == start.accepted
    ensures s.stored == start.stored + Stored(cfg, start.queue, Offered(start, arrivals), verdicts, 0)
  {
    ProceedKeepsInv(cfg, s, k);
    UpdatedTwice(start.flushes, k, s.flushes[k], Settled);
    assert s.stored + [] == s.stored && s.accepted + [] == s.accepted && start.accepted + [] == start.accepted;
  }

  lemma UpdatedTwice<T>(xs: seq<T>, k: nat, x: T, y: T)
    requires k < |xs|
    ensures xs[k := x][k := y] == xs[k := y]
  {}

  lemma StoredUnfolds<E>(
    cfg: Config, done: seq<E>, q: seq<E>, arrivals: seq<seq<E>>, verdicts: nat -> bool, b: nat)
    requires ValidConfig(cfg) && q != []
    ensures var n := Take(cfg, |q|);
            var left := Newest(q[n..] + Now(arrivals), cfg.maxQueueSize);
            done + Stored(cfg, q, arrivals, verdicts, b)
            == (done + if verdicts(b) then q[..n] else []) + Stored(cfg, left, Later(arrivals), verdicts, b + 1)
  {
    var n := Take(cfg, |q|);
    Regroup(done, if verdicts(b) then q[..n] else [],
            Stored(cfg, Newest(q[n..] + Now(arrivals), cfg.maxQueueSize), Later(arrivals), verdicts, b + 1));
  }

  lemma Regroup<E>(a: seq<E>, b: seq<E>, c: seq<E>)
    ensures a + (b + c) == (a + b) + c
  {}
}
