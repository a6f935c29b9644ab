/** One approval call by itself: what it answers and what it leaves in the table. */
module ApprovalCalls {
  import opened Wrappers
  import opened Bindings
  import opened ApprovalRecords
  import opened ApprovalProtocol
  import opened ApprovalTheorems

  /** The table and the answer when no other call runs meanwhile. */
  function Undisturbed(cfg: Config, t: Table, call: Call, now: int, p: Phase): (Table, Outcome)
    requires call.DecideCall? || call.ConsumeCall?
    decreases Rank(p)
  {
    match p
    case Finished(r) => (t, r)
    case Answered(_, _) => (t, Failed)
    case Asked(f) =>
      if !Suits(call, f) then (t, Failed)
      else
        var (u, reply) := Exec(t, cfg.backend, QueryOf(call, now, f), []);
        ResumeLowersRank(cfg, call, now, f, reply, 0, []);
        Undisturbed(cfg, u, call, now, Resumed(cfg, call, now, f, reply, 0, []))
  }

  /** A pending record that is due is expired and read again. */
  lemma ExpiryAlone(cfg: Config, t: Table, call: Call, now: int)
    requires call.DecideCall? || call.ConsumeCall?
    requires call.id in t && t[call.id].draft.id == call.id && t[call.id].status == Pending
    ensures var expired := t[call.id].(status := Expired, decidedAt := Some(now));
            Undisturbed(cfg, t, call, now, Asked(Expiring(t[call.id])))
            == (t[call.id := expired], IsExpired(expired))
  {
    var r := t[call.id];
    var u := t[call.id := ExpiredRecord(r, now)];
    assert Undisturbed(cfg, u, call, now, Asked(Rereading(r))) == (u, IsExpired(u[call.id]));
  }

  /** The answers of consume by the stored record, in the order in which they are given. */
  lemma ConsumeAlone(cfg: Config, t: Table, call: Call, now: int)
    requires TableSound(t) && call.ConsumeCall?
    ensures var (u, answer) := Undisturbed(cfg, t, call, now, Asked(Reading));
            if call.id !in t then u == t && answer == NotFound
            else
              var r := t[call.id];
              if r.draft.expiresAt <= now && r.status == Pending then
                var expired := r.(status := Expired, decidedAt := Some(now));
                u == t[call.id := expired] && answer == IsExpired(expired)
              else if r.draft.expiresAt <= now || r.status == Expired then u == t && answer == IsExpired(r)
              else if r.status == Pending || r.status == Denied then u == t && answer == NotApproved(r)
              else if r.consumedAt.Some? then u == t && answer == AlreadyConsumed(r)
              else if !SameBinding(r.draft.binding, BindingOf(call.context)) then u == t && answer == BindingMismatch(r)
              else
                var consumed := r.(consumedAt := Some(now), consumedBy := Some(call.agent));
                u == t[call.id := consumed] && answer == Consumed(consumed)
  {
    if call.id in t && t[call.id].status == Pending && t[call.id].draft.expiresAt <= now {
      ExpiryAlone(cfg, t, call, now);
    }
  }

  /** The answers of decide by the stored record. */
  lemma DecideAlone(cfg: Config, t: Table, call: Call, now: int)
    requires TableSound(t) && call.DecideCall? && ValidCall(call)
    ensures var (u, answer) := Undisturbed(cfg, t, call, now, Asked(Reading));
            if call.id !in t then u == t && answer == NotFound
            else
              var r := t[call.id];
              if r.status == Expired then u == t && answer == IsExpired(r)
              else if r.status != Pending then u == t && answer == AlreadyDecided(r)
              else if r.draft.expiresAt <= now then
                var expired := r.(status := Expired, decidedAt := Some(now));
                u == t[call.id := expired] && answer == IsExpired(expired)
              else
                var decided := r.(status := call.status, approverId := Some(call.approver), decidedAt := Some(now),
                                  decisionReason := call.reason);
                u == t[call.id := decided] && answer == Decided(decided)
  {
    if call.id in t && t[call.id].status == Pending && t[call.id].draft.expiresAt <= now {
      ExpiryAlone(cfg, t, call, now);
    }
  }
}
