/** The outbox table and what any number of relays may do to it
  (internal/repository/outbox_repository.go).

  Every statement carries its own value of NOW(), the start of its transaction; nothing is assumed
  about the order of these times, so clock skew between transactions is covered.  Times are in
  microseconds. */
module Outbox {
  import opened Powers
  import opened Options

  type Id = nat

  datatype Status = Pending | Processing | Published | Failed

  datatype Row = Row(
    customer: Id, status: Status, attempts: nat, availableAt: int, lockedAt: Option<int>,
    publishedAt: Option<int>, lastError: Option<string>, createdAt: int, updatedAt: int)

  type Table = map<Id, Row>

  const SECOND := 1_000_000
  const LEASE := 300 * SECOND
  const MAX_ATTEMPTS := 10

  predicate Terminal(r: Row) {
    r.status.Published? || r.status.Failed?
  }

  // ---------------------------------------------------------------- the statements

  /** INSERT with the column defaults. */
  function NewRow(customer: Id, now: int): Row {
    Row(customer, Pending, 0, now, None, None, None, now, now)
  }

  /** The WHERE clause of the claim; a NULL locked_at compares as unknown. */
  predicate Eligible(r: Row, now: int) {
    || (r.status.Pending? && r.availableAt <= now)
    || (r.status.Processing? && r.lockedAt.Some? && r.lockedAt.value < now - LEASE)
  }

  function ClaimedRow(r: Row, now: int): Row {
    r.(status := Processing, lockedAt := Some(now), attempts := r.attempts + 1, updatedAt := now)
  }

  function PublishedRow(r: Row, now: int): Row {
    r.(status := Published, publishedAt := Some(now), lockedAt := None, updatedAt := now)
  }

  /** LEAST(POWER(2, attempts), 300) seconds. */
  function Backoff(attempts: nat): int {
    (if Pow2(attempts) < 300 then Pow2(attempts) else 300) * SECOND
  }

  function FailedRow(r: Row, now: int, message: string): Row {
    r.(status := if r.attempts >= MAX_ATTEMPTS then Failed else Pending,
       availableAt := if r.attempts >= MAX_ATTEMPTS then r.availableAt else now + Backoff(r.attempts),
       lockedAt := None, lastError := Some(message), updatedAt := now)
  }

  function WithPublished(t: Table, id: Id, now: int): Table {
    if id in t then t[id := PublishedRow(t[id], now)] else t
  }

  function WithFailed(t: Table, id: Id, now: int, message: string): Table {
    if id in t then t[id := FailedRow(t[id], now, message)] else t
  }

  /** One UPDATE per claimed id, in order. */
  function WithClaims(t: Table, ids: seq<Id>, now: int): Table {
    if ids == [] then t
    else WithClaims(if ids[0] in t then t[ids[0] := ClaimedRow(t[ids[0]], now)] else t, ids[1..], now)
  }

  /** What SELECT ... ORDER BY created_at FOR UPDATE SKIP LOCKED LIMIT n may return when the rows of
      `locked` are held by other transactions: distinct eligible rows in created_at order, at most n,
      and nothing eligible passed over for a younger row or for want of room. */
  ghost predicate IsSelection(t: Table, now: int, limit: nat, locked: set<Id>, ids: seq<Id>) {
    && |ids| <= limit
    && (forall i :: 0 <= i < |ids| ==> ids[i] in t && ids[i] !in locked && Eligible(t[ids[i]], now))
    && (forall i, j :: 0 <= i < j < |ids| ==> ids[i] != ids[j] && t[ids[i]].createdAt <= t[ids[j]].createdAt)
    && (forall id :: id in t && id !in locked && Eligible(t[id], now) && id !in ids ==>
          |ids| == limit && forall i :: 0 <= i < |ids| ==> t[ids[i]].createdAt <= t[id].createdAt)
  }

  /** The eligible rows a selection has not taken. */
  function Left(t: Table, now: int, locked: set<Id>, ids: seq<Id>): set<Id> {
    set id | id in t && id !in locked && Eligible(t[id], now) && id !in ids
  }

  predicate IsOldest(t: Table, s: set<Id>, oldest: Id)
    requires s <= t.Keys
  {
    oldest in s && forall id :: id in s ==> t[oldest].createdAt <= t[id].createdAt
  }

  lemma {:induction false} OldestExists(t: Table, s: set<Id>)
    requires s != {} && s <= t.Keys
    ensures exists oldest :: oldest in s && IsOldest(t, s, oldest)
    decreases s
  {
    var id :| id in s;
    if s == {id} {
      assert IsOldest(t, s, id);
    } else {
      OldestExists(t, s - {id});
      var other :| other in s - {id} && IsOldest(t, s - {id}, other);
      assert forall e :: e in s ==> e == id || e in s - {id};
      if t[other].createdAt < t[id].createdAt {
        assert IsOldest(t, s, other);
      } else {
        assert IsOldest(t, s, id);
      }
    }
  }

  /** A selection of at most n rows becomes one of at most n + 1 by taking the oldest row left, if any. */
  lemma SelectOneMore(t: Table, now: int, limit: nat, locked: set<Id>, ids: seq<Id>)
    requires IsSelection(t, now, limit, locked, ids)
    ensures var left := Left(t, now, locked, ids);
            if left == {} then IsSelection(t, now, limit + 1, locked, ids)
            else forall id :: id in left && IsOldest(t, left, id) ==> IsSelection(t, now, limit + 1, locked, ids + [id])
  {
    hide Eligible;
    var left := Left(t, now, locked, ids);
    assert forall id :: id in t && id !in locked && Eligible(t[id], now) && id !in ids ==> id in left;
    forall id | id in left && IsOldest(t, left, id)
      ensures IsSelection(t, now, limit + 1, locked, ids + [id])
    {
      assert |ids| == limit;
    }
  }

  /** A selection picked one row at a time, each the oldest of those left. */
  method SelectOldest(t: Table, now: int, limit: nat, locked: set<Id>) returns (ids: seq<Id>)
    ensures IsSelection(t, now, limit, locked, ids)
  {
    hide IsSelection, IsOldest;
    ids := [];
    NothingSelected(t, now, locked);
    for n := 0 to limit
      invariant IsSelection(t, now, n, locked, ids)
    {
      var left := Left(t, now, locked, ids);
      SelectOneMore(t, now, n, locked, ids);
      if left != {} {
        OldestExists(t, left);
        var id :| id in left && IsOldest(t, left, id);
        ids := ids + [id];
      }
    }
  }

  /** There is always something the database may select. */
  lemma {:induction false} SelectionExists(t: Table, now: int, limit: nat, locked: set<Id>) returns (ids: seq<Id>)
    ensures IsSelection(t, now, limit, locked, ids)
  {
    hide IsSelection, IsOldest;
    if limit == 0 {
      ids := [];
      NothingSelected(t, now, locked);
    } else {
      ids := SelectionExists(t, now, limit - 1, locked);
      var left := Left(t, now, locked, ids);
      SelectOneMore(t, now, limit - 1, locked, ids);
      if left != {} {
        OldestExists(t, left);
        var id :| id in left && IsOldest(t, left, id);
        ids := ids + [id];
      }
    }
  }

  lemma NothingSelected(t: Table, now: int, locked: set<Id>)
    ensures IsSelection(t, now, 0, locked, [])
  {
  }

  /** Which rows a claim may take, in microseconds: pending ones that are due, and processing ones locked more
      than five minutes ago. */
  lemma EligibleIs(r: Row, now: int)
    ensures Eligible(r, now)
       <==> || (r.status == Pending && r.availableAt <= now)
            || (r.status == Processing && r.lockedAt.Some? && r.lockedAt.value < now - 300_000_000)
  {
  }

  /** What a failure mark makes of a row: failed from ten attempts on; before that pending again, due after
      2^attempts seconds, but no more than 300. */
  lemma FailedRowIs(r: Row, now: int, message: string)
    ensures var f := FailedRow(r, now, message);
            && (r.attempts >= 10 ==> f.status == Failed && f.availableAt == r.availableAt)
            && (r.attempts < 10 ==> f.status == Pending)
            && (r.attempts <= 8 ==> f.availableAt == now + Pow2(r.attempts) * 1_000_000)
            && (r.attempts == 9 ==> f.availableAt == now + 300_000_000)
            && f.lockedAt == None && f.lastError == Some(message) && f.updatedAt == now
            && f.customer == r.customer && f.attempts == r.attempts && f.publishedAt == r.publishedAt && f.createdAt == r.createdAt
  {
    Pow2Is();
    if r.attempts <= 8 {
      Pow2Grows(r.attempts, 8);
    }
  }

  /** The effect of a claim on each row. */
  lemma {:induction false} WithClaimsAt(t: Table, ids: seq<Id>, now: int, id: Id)
    requires forall i :: 0 <= i < |ids| ==> ids[i] in t
    requires forall i, j :: 0 <= i < j < |ids| ==> ids[i] != ids[j]
    ensures WithClaims(t, ids, now).Keys == t.Keys
    ensures id in t ==> WithClaims(t, ids, now)[id] == if id in ids then ClaimedRow(t[id], now) else t[id]
  {
    if ids != [] {
      var t' := t[ids[0] := ClaimedRow(t[ids[0]], now)];
      assert t'.Keys == t.Keys;
      WithClaimsAt(t', ids[1..], now, id);
      assert id in ids <==> id == ids[0] || id in ids[1..];
      if id == ids[0] {
        assert id !in ids[1..];
      }
    }
  }

  // ---------------------------------------------------------------- the repository

  class OutboxRepository {
    var rows: Table

    constructor ()
      ensures rows == map[]
    {
      rows := map[];
    }

    /** INSERT inside the caller's transaction; the database draws the id.  Every other event stays as it
        was; the new one is pending, unclaimed and unlocked, and can be claimed from now on. */
    method Create(id: Id, customer: Id, now: int)
      requires id !in rows
      modifies this
      ensures rows.Keys == old(rows).Keys + {id} && forall e :: e in old(rows) ==> rows[e] == old(rows)[e]
      ensures rows[id].customer == customer && rows[id].status.Pending? && rows[id].attempts == 0
      ensures rows[id].lockedAt.None? && rows[id].publishedAt.None? && rows[id].lastError.None?
      ensures rows[id].createdAt == rows[id].updatedAt == now
      ensures forall t :: Eligible(rows[id], t) <==> t >= now
      ensures rows[id] == NewRow(customer, now)
    {
      rows := rows[id := NewRow(customer, now)];
    }

    /** Selects and marks a batch in one transaction; without a commit nothing happens. */
    method ClaimBatch(limit: nat, now: int, locked: set<Id>, commits: bool)
      returns (events: Option<seq<(Id, Row)>>, ghost ids: seq<Id>)
      modifies this
      ensures IsSelection(old(rows), now, limit, locked, ids)
      ensures forall i :: 0 <= i < |ids| ==>
                && ids[i] in old(rows) && ids[i] !in locked
                && var r := old(rows)[ids[i]];
                   || (r.status == Pending && r.availableAt <= now)
                   || (r.status == Processing && r.lockedAt.Some? && r.lockedAt.value < now - 300_000_000)
      ensures commits ==> rows == WithClaims(old(rows), ids, now)
      ensures commits ==> rows.Keys == old(rows).Keys && forall e :: e in rows ==>
                if e in ids
                then rows[e] == old(rows)[e].(status := Processing, lockedAt := Some(now),
                                              attempts := old(rows)[e].attempts + 1, updatedAt := now)
                else rows[e] == old(rows)[e]
      ensures commits ==> events.Some? && |events.value| == |ids|
      ensures commits ==> forall i :: 0 <= i < |ids| ==> events.value[i] == (ids[i], old(rows)[ids[i]])
      ensures !commits ==> rows == old(rows) && events == None
    {
      var selected := SelectOldest(rows, now, limit, locked);
      ids := selected;
      var items: seq<(Id, Row)> := [];
      for i := 0 to |selected|
        invariant |items| == i
        invariant forall k :: 0 <= k < i ==> items[k] == (selected[k], rows[selected[k]])
      {
        items := items + [(selected[i], rows[selected[i]])];
      }
      var updated := rows;
      for i := 0 to |items|
        invariant WithClaims(updated, ids[i..], now) == WithClaims(rows, ids, now)
        invariant updated.Keys == rows.Keys
      {
        var id := items[i].0;
        updated := updated[id := ClaimedRow(updated[id], now)];
        assert ids[i..][1..] == ids[i + 1..];
      }
      if !commits {
        return None, ids;
      }
      rows := updated;
      forall e
        ensures e in rows <==> e in old(rows)
        ensures e in rows ==> rows[e] == if e in ids then ClaimedRow(old(rows)[e], now) else old(rows)[e]
      {
        WithClaimsAt(old(rows), ids, now, e);
      }
      return Some(items), ids;
    }

    method MarkPublished(id: Id, now: int)
      modifies this
      ensures rows == WithPublished(old(rows), id, now)
      ensures id in old(rows) ==>
                rows == old(rows)[id := old(rows)[id].(status := Published, publishedAt := Some(now), lockedAt := None,
                                                       updatedAt := now)]
    {
      if id in rows {
        rows := rows[id := PublishedRow(rows[id], now)];
      }
    }

    method MarkFailed(id: Id, now: int, message: string)
      modifies this
      ensures rows == WithFailed(old(rows), id, now, message)
      ensures id in old(rows) ==>
                && rows.Keys == old(rows).Keys && (forall e :: e in rows && e != id ==> rows[e] == old(rows)[e])
                && rows[id].status == (if old(rows)[id].attempts >= 10 then Failed else Pending)
                && rows[id].lockedAt == None && rows[id].lastError == Some(message)
    {
      if id in rows {
        rows := rows[id := FailedRow(rows[id], now, message)];
      }
    }
  }
}
