/** Approval records and the repository operations, each of which is one atomic step. */
module ApprovalRecords {
  import opened Wrappers
  import opened Texts
  import opened Json
  import opened Bindings

  datatype Status = Pending | Approved | Denied | Expired

  datatype NewApproval = NewApproval(
    id: Text,
    requestId: Json,
    binding: Binding,
    arguments: Json,
    policyId: Option<Text>,
    reason: Text,
    createdAt: int,
    expiresAt: int)

  /** `consumedBy` is the column that only PostgreSQL keeps. */
  datatype Record = Record(
    draft: NewApproval,
    status: Status,
    approverId: Option<Text>,
    decidedAt: Option<int>,
    decisionReason: Option<Text>,
    consumedAt: Option<int>,
    consumedBy: Option<Text>)
  {
    predicate DueBy(now: int) {
      draft.expiresAt <= now
    }
  }

  function PendingRecord(draft: NewApproval): Record {
    Record(draft, Pending, None, None, None, None, None)
  }

  function DecidedRecord(r: Record, status: Status, approver: Text, at: int, reason: Option<Text>): Record {
    r.(status := status, approverId := Some(approver), decidedAt := Some(at), decisionReason := reason)
  }

  function ConsumedRecord(r: Record, at: int, agent: Text): Record {
    r.(consumedAt := Some(at), consumedBy := Some(agent))
  }

  function ExpiredRecord(r: Record, at: int): Record {
    r.(status := Expired, decidedAt := Some(at))
  }

  type Table = map<Text, Record>

  /** PostgreSQL enforces the partial unique index; the in-memory repository does not, and
      compares bindings through a joined key. */
  datatype Backend = Postgres | Memory

  predicate SameKey(backend: Backend, a: Binding, b: Binding) {
    match backend
    case Postgres => SameRowKey(a, b)
    case Memory => JoinKey(a) == JoinKey(b)
  }

  datatype Query =
    | FindPending(binding: Binding)
    | FindById(id: Text)
    | Insert(draft: NewApproval)
    | Decide(id: Text, status: Status, approver: Text, at: int, reason: Option<Text>)
    | Consume(id: Text, at: int, agent: Text)
    | MarkExpired(id: Text, at: int)
    | ExpireStale(at: int)

  datatype Reply =
    | Row(row: Option<Record>)
    | Flag(changed: bool)
    | Rows(rows: seq<Record>)
    | Done
    | Threw

  /** Pending records that a lookup by binding may return. */
  function Candidates(t: Table, backend: Backend, binding: Binding): set<Text> {
    set id | id in t && t[id].status == Pending && SameKey(backend, t[id].draft.binding, binding)
  }

  function Stale(t: Table, now: int): set<Text> {
    set id | id in t && t[id].status == Pending && t[id].DueBy(now)
  }

  predicate Lists(ids: seq<Text>, s: set<Text>) {
    && (forall i, j | 0 <= i < j < |ids| :: ids[i] != ids[j])
    && (set id | id in ids) == s
  }

  lemma ListsItsElements(ids: seq<Text>, s: set<Text>)
    requires Lists(ids, s)
    ensures forall id :: id in ids <==> id in s
    ensures forall i | 0 <= i < |ids| :: ids[i] in s
  {
    assert forall id :: id in ids <==> id in (set x | x in ids);
  }

  /** The choice a repository has: which matching row to return, in which order to list. */
  predicate Legal(t: Table, backend: Backend, q: Query, pick: seq<Text>) {
    match q
    case FindPending(binding) =>
      if Candidates(t, backend, binding) == {} then pick == []
      else |pick| == 1 && pick[0] in Candidates(t, backend, binding)
    case ExpireStale(now) => Lists(pick, Stale(t, now))
    case _ => pick == []
  }

  function Find(t: Table, id: Text): Option<Record> {
    if id in t then Some(t[id]) else None
  }

  predicate Insertable(t: Table, backend: Backend, draft: NewApproval) {
    && draft.id !in t
    && (backend == Postgres ==>
          forall id | id in t && t[id].status == Pending :: !SameIndexKey(t[id].draft.binding, draft.binding))
  }

  predicate Decidable(t: Table, id: Text, at: int) {
    id in t && t[id].status == Pending && !t[id].DueBy(at)
  }

  predicate Consumable(t: Table, id: Text, at: int) {
    id in t && t[id].status == Approved && t[id].consumedAt.None? && !t[id].DueBy(at)
  }

  function ExpireSet(t: Table, ids: set<Text>, now: int): Table {
    map id | id in t :: if id in ids then ExpiredRecord(t[id], now) else t[id]
  }

  function ExpiredRows(t: Table, ids: seq<Text>, now: int): (rows: seq<Record>)
    requires forall i | 0 <= i < |ids| :: ids[i] in t
    ensures |rows| == |ids| && forall i | 0 <= i < |ids| :: rows[i] == ExpiredRecord(t[ids[i]], now)
  {
    if ids == [] then [] else [ExpiredRecord(t[ids[0]], now)] + ExpiredRows(t, ids[1..], now)
  }

  /** One repository call, executed atomically. */
  function Exec(t: Table, backend: Backend, q: Query, pick: seq<Text>): (r: (Table, Reply))
    requires Legal(t, backend, q, pick)
  {
    match q
    case FindPending(_) => (t, Row(if pick == [] then None else Some(t[pick[0]])))
    case FindById(id) => (t, Row(Find(t, id)))
    case Insert(draft) =>
      if Insertable(t, backend, draft) then (t[draft.id := PendingRecord(draft)], Done) else (t, Threw)
    case Decide(id, status, approver, at, reason) =>
      if Decidable(t, id, at) then
        var r := DecidedRecord(t[id], status, approver, at, reason);
        (t[id := r], Row(Some(r)))
      else (t, Row(None))
    case Consume(id, at, agent) =>
      if Consumable(t, id, at) then
        var r := ConsumedRecord(t[id], at, agent);
        (t[id := r], Row(Some(r)))
      else (t, Row(None))
    case MarkExpired(id, at) =>
      if id in t && t[id].status == Pending then (t[id := ExpiredRecord(t[id], at)], Flag(true))
      else (t, Flag(false))
    case ExpireStale(now) =>
      assert forall i | 0 <= i < |pick| :: pick[i] in Stale(t, now);
      (ExpireSet(t, Stale(t, now), now), Rows(ExpiredRows(t, pick, now)))
  }
}

/** `InMemoryApprovalRepository`: a `Map` kept in insertion order, updated in place. */
module InMemoryApprovals {
  import opened Wrappers
  import opened Texts
  import opened Bindings
  import opened ApprovalRecords

  function MatchingPending(t: Table, ids: seq<Text>, binding: Binding): seq<Text> {
    if ids == [] then []
    else if ids[0] in Candidates(t, Memory, binding) then [ids[0]]
    else MatchingPending(t, ids[1..], binding)
  }

  function StaleIn(t: Table, ids: seq<Text>, now: int): seq<Text> {
    if ids == [] then []
    else (if ids[0] in Stale(t, now) then [ids[0]] else []) + StaleIn(t, ids[1..], now)
  }

  lemma {:induction false} FirstMatchIsLegal(t: Table, ids: seq<Text>, binding: Binding)
    ensures var pick := MatchingPending(t, ids, binding);
            && |pick| <= 1 && (pick != [] ==> pick[0] in ids && pick[0] in Candidates(t, Memory, binding))
            && (pick == [] ==> forall id | id in ids :: id !in Candidates(t, Memory, binding))
  {
    if ids != [] && ids[0] !in Candidates(t, Memory, binding) {
      FirstMatchIsLegal(t, ids[1..], binding);
    }
  }

  /** The lookup finds the record that was inserted first among those that are pending with the key. */
  lemma {:induction false} FirstMatchIsFirst(t: Table, ids: seq<Text>, binding: Binding) returns (k: nat)
    requires MatchingPending(t, ids, binding) != []
    ensures k < |ids| && MatchingPending(t, ids, binding) == [ids[k]]
    ensures forall j | 0 <= j < k && ids[j] in t ::
              t[ids[j]].status != Pending || JoinKey(t[ids[j]].draft.binding) != JoinKey(binding)
  {
    k := 0;
    if ids[0] !in Candidates(t, Memory, binding) {
      var rest := FirstMatchIsFirst(t, ids[1..], binding);
      k := rest + 1;
    }
  }

  lemma {:induction false} StaleInMembers(t: Table, ids: seq<Text>, now: int)
    requires forall i, j | 0 <= i < j < |ids| :: ids[i] != ids[j]
    ensures forall id :: id in StaleIn(t, ids, now) <==> id in ids && id in Stale(t, now)
    ensures forall i, j | 0 <= i < j < |StaleIn(t, ids, now)| ::
              StaleIn(t, ids, now)[i] != StaleIn(t, ids, now)[j]
  {
    if ids != [] {
      StaleInMembers(t, ids[1..], now);
      assert ids[0] !in ids[1..];
      assert forall id :: id in ids <==> id == ids[0] || id in ids[1..];
    }
  }

  lemma {:induction false} StaleInAppend(t: Table, ids: seq<Text>, id: Text, now: int)
    ensures StaleIn(t, ids + [id], now)
         == StaleIn(t, ids, now) + (if id in Stale(t, now) then [id] else [])
  {
    if ids != [] {
      assert (ids + [id])[1..] == ids[1..] + [id];
      StaleInAppend(t, ids[1..], id, now);
    }
  }

  /** The sweep lists the overdue pending records in the order of their insertion. */
  lemma {:induction false} SweepKeepsTheOrder(t: Table, ids: seq<Text>, now: int) returns (at: seq<nat>)
    ensures |at| == |StaleIn(t, ids, now)|
    ensures forall i, j | 0 <= i < j < |at| :: at[i] < at[j]
    ensures forall i | 0 <= i < |at| :: at[i] < |ids| && StaleIn(t, ids, now)[i] == ids[at[i]]
    ensures forall k | 0 <= k < |ids| && ids[k] in t ::
              k in at <==> t[ids[k]].status == Pending && t[ids[k]].draft.expiresAt <= now
  {
    if ids == [] {
      at := [];
    } else {
      var n := |ids| - 1;
      assert ids == ids[..n] + [ids[n]];
      StaleInAppend(t, ids[..n], ids[n], now);
      at := SweepKeepsTheOrder(t, ids[..n], now);
      if ids[n] in Stale(t, now) {
        var front := at;
        at := at + [n];
        assert forall k | k in front :: k in at;
        assert at[|front|] == n;
      }
    }
  }

  class InMemoryApprovalRepository {
    var approvals: Table
    var order: seq<Text>

    ghost predicate Valid()
      reads this
    {
      Lists(order, approvals.Keys)
    }

    constructor ()
      ensures Valid() && approvals == map[] && order == []
    {
      approvals, order := map[], [];
    }

    /** Each method is the atomic step that the protocol takes for it. */
    method Create(draft: NewApproval) returns (ok: bool)
      requires Valid()
      modifies this
      ensures Valid()
      ensures Legal(old(approvals), Memory, Insert(draft), [])
      ensures (approvals, if ok then Done else Threw) == Exec(old(approvals), Memory, Insert(draft), [])
    {
      ok := draft.id !in approvals;
      if ok {
        approvals := approvals[draft.id := PendingRecord(draft)];
        order := order + [draft.id];
      }
    }

    method FindById(id: Text) returns (row: Option<Record>)
      ensures (approvals, Row(row)) == Exec(approvals, Memory, Query.FindById(id), [])
    {
      row := if id in approvals then Some(approvals[id]) else None;
    }

    method FindPendingByBinding(binding: Binding) returns (row: Option<Record>)
      requires Valid()
      ensures Legal(approvals, Memory, FindPending(binding), MatchingPending(approvals, order, binding))
      ensures (approvals, Row(row))
           == Exec(approvals, Memory, FindPending(binding), MatchingPending(approvals, order, binding))
    {
      FirstMatchIsLegal(approvals, order, binding);
      assert forall id | id in approvals :: id in order by {
        assert forall id | id in approvals :: id in (set x | x in order);
      }
      var i := 0;
      while i < |order|
        invariant i <= |order|
        invariant MatchingPending(approvals, order, binding) == MatchingPending(approvals, order[i..], binding)
      {
        assert order[i] in (set x | x in order);
        var record := approvals[order[i]];
        assert order[i..][1..] == order[i + 1..];
        if record.status == Pending && JoinKey(record.draft.binding) == JoinKey(binding) {
          return Some(record);
        }
        i := i + 1;
      }
      return None;
    }

    method Decide(id: Text, status: Status, approver: Text, at: int, reason: Option<Text>)
      returns (row: Option<Record>)
      requires Valid()
      modifies `approvals
      ensures Valid()
      ensures (approvals, Row(row))
           == Exec(old(approvals), Memory, Query.Decide(id, status, approver, at, reason), [])
    {
      if id !in approvals || approvals[id].status != Pending || approvals[id].draft.expiresAt <= at {
        return None;
      }
      var next := DecidedRecord(approvals[id], status, approver, at, reason);
      approvals := approvals[id := next];
      return Some(next);
    }

    method Consume(id: Text, at: int, agent: Text) returns (row: Option<Record>)
      requires Valid()
      modifies `approvals
      ensures Valid()
      ensures (approvals, Row(row)) == Exec(old(approvals), Memory, Query.Consume(id, at, agent), [])
    {
      if id !in approvals || approvals[id].status != Approved || approvals[id].consumedAt.Some?
         || approvals[id].draft.expiresAt <= at {
        return None;
      }
      var next := ConsumedRecord(approvals[id], at, agent);
      approvals := approvals[id := next];
      return Some(next);
    }

    method MarkExpired(id: Text, at: int) returns (changed: bool)
      requires Valid()
      modifies `approvals
      ensures Valid()
      ensures (approvals, Flag(changed)) == Exec(old(approvals), Memory, Query.MarkExpired(id, at), [])
    {
      if id !in approvals || approvals[id].status != Pending {
        return false;
      }
      approvals := approvals[id := ExpiredRecord(approvals[id], at)];
      return true;
    }

    /** The loop visits the records in insertion order and pushes the ones it expires. */
    method ExpireStale(now: int) returns (expired: seq<Record>)
      requires Valid()
      modifies `approvals
      ensures Valid()
      ensures Legal(old(approvals), Memory, Query.ExpireStale(now), StaleIn(old(approvals), order, now))
      ensures (approvals, Rows(expired))
           == Exec(old(approvals), Memory, Query.ExpireStale(now), StaleIn(old(approvals), order, now))
    {
      ghost var before := approvals;
      SweepStarts(before, order, now);
      expired := [];
      for i := 0 to |order|
        invariant SweptTo(before, order, now, i, approvals, expired)
      {
        SweepOneMore(before, order, now, i, approvals, expired);
        var id := order[i];
        var record := approvals[id];
        if record.status == Pending && record.draft.expiresAt <= now {
          var next := ExpiredRecord(record, now);
          approvals := approvals[id := next];
          expired := expired + [next];
        }
      }
      SweepEnds(before, order, now, approvals, expired);
    }
  }

  /** The loop has swept the first i records. */
  ghost predicate SweptTo(before: Table, order: seq<Text>, now: int, i: nat, approvals: Table, expired: seq<Record>)
    requires i <= |order|
  {
    var pick := StaleIn(before, order[..i], now);
    && (forall id | id in pick :: id in before)
    && approvals == ExpireSet(before, (set id | id in pick), now)
    && expired == ExpiredRows(before, pick, now)
  }

  lemma SweepOneMore(before: Table, order: seq<Text>, now: int, i: nat, approvals: Table, expired: seq<Record>)
    requires Lists(order, before.Keys) && i < |order| && SweptTo(before, order, now, i, approvals, expired)
    ensures order[i] in before && order[i] in approvals && approvals[order[i]] == before[order[i]]
    ensures var next := ExpiredRecord(before[order[i]], now);
            if order[i] in Stale(before, now) then
              SweptTo(before, order, now, i + 1, approvals[order[i] := next], expired + [next])
            else SweptTo(before, order, now, i + 1, approvals, expired)
  {
    var id, pick := order[i], StaleIn(before, order[..i], now);
    ListsItsElements(order, before.Keys);
    assert forall k | 0 <= k < i :: order[..i][k] == order[k];
    StaleInMembers(before, order[..i], now);
    assert id !in order[..i];
    assert order[..i + 1] == order[..i] + [id];
    StaleInAppend(before, order[..i], id, now);
    if id in Stale(before, now) {
      ExpireOneMore(before, pick, id, now);
    }
  }

  lemma SweepStarts(before: Table, order: seq<Text>, now: int)
    ensures SweptTo(before, order, now, 0, before, [])
  {
    assert order[..0] == [] && StaleIn(before, [], now) == [];
    assert ExpireSet(before, {}, now) == before;
  }

  /** Sweeping in insertion order is one of the orders a sweep may list. */
  lemma SweepEnds(before: Table, order: seq<Text>, now: int, approvals: Table, expired: seq<Record>)
    requires Lists(order, before.Keys) && SweptTo(before, order, now, |order|, approvals, expired)
    ensures Lists(order, approvals.Keys)
    ensures Legal(before, Memory, Query.ExpireStale(now), StaleIn(before, order, now))
    ensures (approvals, Rows(expired))
         == Exec(before, Memory, Query.ExpireStale(now), StaleIn(before, order, now))
  {
    assert order[..|order|] == order;
    StaleInMembers(before, order, now);
    ListsItsElements(order, before.Keys);
    assert (set id | id in StaleIn(before, order, now)) == Stale(before, now);
    assert approvals.Keys == before.Keys;
  }

  lemma ExpireOneMore(t: Table, done: seq<Text>, id: Text, now: int)
    requires id in t && id !in done && forall x | x in done :: x in t
    ensures ExpireSet(t, (set x | x in done + [id]), now)
         == ExpireSet(t, (set x | x in done), now)[id := ExpiredRecord(t[id], now)]
    ensures ExpiredRows(t, done + [id], now) == ExpiredRows(t, done, now) + [ExpiredRecord(t[id], now)]
  {
    assert forall x :: x in done + [id] <==> x in done || x == id;
  }
}
