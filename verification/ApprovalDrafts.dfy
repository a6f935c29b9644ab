/** What a stored approval says about the call that asked for it. */
module ApprovalDrafts {
  import opened Wrappers
  import opened Texts
  import opened Json
  import opened Requests
  import opened Redaction
  import Bindings
  import Canonical
  import opened RedactedCopies
  import opened ApprovalRecords
  import opened ApprovalProtocol
  import opened ApprovalSafety
  import opened ApprovalTheorems
  import opened ApprovalTrail

  // ---------------------------------------------------------------- one draft

  /** A granted time: what was asked if it is positive and finite, at most the maximum, and
      otherwise the default as it stands. A default that is used because nothing was asked is
      held to the maximum too. */
  ghost predicate IsGranted(cfg: Config, ttl: Ttl, span: int) {
    match ttl
    case Finite(ms) =>
      if ms > 0 then span <= ms && span <= cfg.maxTtl && span in {ms, cfg.maxTtl} else span == cfg.defaultTtl
    case NotFinite => span == cfg.defaultTtl
    case Unspecified =>
      && span <= cfg.defaultTtl
      && if cfg.defaultTtl > 0 then span <= cfg.maxTtl && span in {cfg.defaultTtl, cfg.maxTtl}
         else span == cfg.defaultTtl
  }

  /** What is kept of the arguments: nothing of none; otherwise the redacted copy, which is
      masked and bounded, and equal up to secrets to arguments that fit. */
  ghost predicate KeepsOf(args: Option<Json>, kept: Json) {
    match args
    case None => kept == Obj([])
    case Some(v) =>
      && IsCopy(v, kept, 0) && (Fits(v, 0) ==> SameButSecrets(v, kept))
      && Masked(kept) && WithinLimits(kept, 0) && WellFormed(kept)
  }

  /** What is hashed: the canonical text of the arguments as they were sent, or `null`. */
  function HashedText(args: Option<Json>): Text {
    match args
    case None => Ascii("null")
    case Some(v) => Canonical.Canonicalize(v)
  }

  /** The draft tells who asked, for what, why and until when. */
  ghost predicate Describes(cfg: Config, d: NewApproval, call: Call)
    requires call.CreateCall?
  {
    var c := call.context;
    && d.requestId == c.requestId
    && d.binding.agentId == c.agentId && d.binding.serverId == c.serverId
    && d.binding.rpcMethod == c.rpcMethod && d.binding.toolName == c.toolName
    && d.binding.argsHashAlgo == Ascii("sha256") && d.binding.argsHash == Bindings.Sha256(HashedText(c.toolArguments))
    && d.policyId == call.evaluation.policyId && d.reason == call.evaluation.reason
    && IsGranted(cfg, call.ttl, d.expiresAt - d.createdAt)
    && KeepsOf(c.toolArguments, d.arguments)
  }

  lemma DraftDescribes(cfg: Config, call: Call, at: int, id: Text)
    requires call.CreateCall? && Shaped(call.context)
    ensures var d := Draft(cfg, call, at, id);
            Describes(cfg, d, call) && d.id == id && d.createdAt == at
  {
    var args := call.context.toolArguments;
    if args.Some? {
      RedactedIsTheCopy(args.value, 0);
      RedactionIsBounded(args.value, 0);
      if Fits(args.value, 0) { CopyKeepsTheRest(args.value, 0); }
    }
  }

  /** Arguments that differ in secrets alone are stored alike. */
  lemma DraftsHideSecrets(cfg: Config, a: Call, b: Call, d: NewApproval, e: NewApproval)
    requires DraftOf(cfg, a, d) && DraftOf(cfg, b, e)
    requires a.context.toolArguments.Some? && b.context.toolArguments.Some?
    requires SameButSecrets(a.context.toolArguments.value, b.context.toolArguments.value)
    ensures d.arguments == e.arguments
  {
    RedactionHidesSecrets(a.context.toolArguments.value, b.context.toolArguments.value, 0);
  }

  // ---------------------------------------------------------------- over runs

  /** The draft that a create call holds while it waits. */
  ghost predicate Holds(s: State, c: nat, d: NewApproval) {
    && c in s.tasks && !s.tasks[c].phase.Finished?
    && (s.tasks[c].phase.frame == Inserting(d) || s.tasks[c].phase.frame == Refinding(d))
  }

  /** A held draft was made when the call went on after its first lookup, with the reading and
      the identifier it then took. */
  lemma {:induction false} WhenItDrafted(
    cfg: Config, states: seq<State>, actions: seq<Action>, n: nat, c: nat, d: NewApproval)
    returns (k: nat)
    requires IsRun(cfg, states, actions) && n < |states| && Holds(states[n], c, d)
    ensures k < n && actions[k] == Resume(c, d.createdAt, d.id)
  {
    assert n > 0;
    var s, a := states[n - 1], actions[n - 1];
    assert StepAt(cfg, states, actions, n - 1);
    TasksOfStep(cfg, s, a);
    if Holds(s, c, d) {
      k := WhenItDrafted(cfg, states, actions, n - 1, c, d);
    } else {
      k := n - 1;
    }
  }

  /** Every stored approval describes the create call that inserted it, which took the creation
      time and the identifier before that. */
  lemma StoredAsAsked(cfg: Config, states: seq<State>, actions: seq<Action>, n: nat, id: Text)
    requires IsRun(cfg, states, actions) && n < |states| && id in states[n].table
    ensures exists i: nat, c: nat :: i < n && Inserts(states, actions, i, c, id) && c in states[n].tasks
              && states[n].tasks[c].call == states[i].tasks[c].call
              && Describes(cfg, states[n].table[id].draft, states[n].tasks[c].call)
              && Resume(c, states[n].table[id].draft.createdAt, id) in actions[..i]
  {
    var i, c := SomeoneInserted(cfg, states, actions, n, id);
    var d, call := states[n].table[id].draft, states[n].tasks[c].call;
    DraftDescribes(cfg, call, d.createdAt, d.id);
    InsertedWasHeld(cfg, states, actions, i, c, n, id);
    RunKeepsInv(cfg, states, actions, n);
    var k := WhenItDrafted(cfg, states, actions, i, c, d);
    assert actions[..i][k] == Resume(c, d.createdAt, id);
  }

  lemma InsertedWasHeld(
    cfg: Config, states: seq<State>, actions: seq<Action>, i: nat, c: nat, n: nat, id: Text)
    requires IsRun(cfg, states, actions) && i < n < |states| && Inserts(states, actions, i, c, id)
    ensures id in states[n].table && Holds(states[i], c, states[n].table[id].draft)
    ensures DraftOf(cfg, states[i].tasks[c].call, states[n].table[id].draft)
  {
    RunKeepsInv(cfg, states, actions, i);
    assert StepAt(cfg, states, actions, i);
    StepAdds(cfg, states[i], actions[i], id);
    InsertsNow(cfg, states, actions, i, id);
    RunEvolves(cfg, states, actions, i + 1, n);
  }

  /** In any two runs, create calls whose arguments differ in secrets alone store the same
      arguments. */
  lemma SecretsAreNotStored(
    cfg: Config,
    states: seq<State>, actions: seq<Action>, i: nat, c: nat, n: nat, id: Text,
    states': seq<State>, actions': seq<Action>, i': nat, c': nat, n': nat, id': Text)
    requires IsRun(cfg, states, actions) && i < n < |states| && Inserts(states, actions, i, c, id)
    requires IsRun(cfg, states', actions') && i' < n' < |states'| && Inserts(states', actions', i', c', id')
    requires var a := states[i].tasks[c].call.context.toolArguments;
             var b := states'[i'].tasks[c'].call.context.toolArguments;
             a.Some? && b.Some? && SameButSecrets(a.value, b.value)
    ensures id in states[n].table && id' in states'[n'].table
    ensures states[n].table[id].draft.arguments == states'[n'].table[id'].draft.arguments
  {
    InsertedWasHeld(cfg, states, actions, i, c, n, id);
    InsertedWasHeld(cfg, states', actions', i', c', n', id');
    DraftsHideSecrets(cfg, states[i].tasks[c].call, states'[i'].tasks[c'].call,
                      states[n].table[id].draft, states'[n'].table[id'].draft);
  }

  /** Neither a stored approval nor an event about one shows what stands under a sensitive key. */
  lemma NothingStoredShowsSecrets(cfg: Config, states: seq<State>, actions: seq<Action>, n: nat)
    requires IsRun(cfg, states, actions) && n < |states|
    ensures forall id | id in states[n].table :: Masked(states[n].table[id].draft.arguments)
    ensures forall i | 0 <= i < |states[n].log| :: Masked(states[n].log[i].record.draft.arguments)
  {
    forall id | id in states[n].table ensures Masked(states[n].table[id].draft.arguments) {
      StoredAsAsked(cfg, states, actions, n, id);
    }
    EventsAreTruthful(cfg, states, actions, n);
    forall i | 0 <= i < |states[n].log| ensures Masked(states[n].log[i].record.draft.arguments) {
      assert EntryHolds(states[n].table, states[n].log[i]);
    }
  }
}
