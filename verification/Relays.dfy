/** Every run of the outbox table under any number of relays: any claim the database may grant and any
  mark, in any order, at any times.  A relay that crashes or whose marks are lost is one whose later
  actions are missing from the run. */
module Relays {
  import opened Options
  import opened Powers
  import opened Outbox

  /** What has happened to one event so far, oldest first. */
  datatype Happening = Claimed(at: int) | Marked(at: int)

  datatype System = System(rows: Table, history: map<Id, seq<Happening>>)

  datatype Action =
    | Insert(id: Id, customer: Id, now: int)
    | Claim(ids: seq<Id>, limit: nat, locked: set<Id>, now: int)
    | Publish(id: Id, now: int)
    | Fail(id: Id, now: int, message: string)

  const EMPTY := System(map[], map[])

  function Extended(history: map<Id, seq<Happening>>, ids: seq<Id>, h: Happening): map<Id, seq<Happening>> {
    map id | id in history :: if id in ids then history[id] + [h] else history[id]
  }

  /** An action the database would refuse leaves the system as it is. */
  ghost function Do(s: System, a: Action): System {
    match a
    case Insert(id, customer, now) =>
      if id in s.rows then s else System(s.rows[id := NewRow(customer, now)], s.history[id := []])
    case Claim(ids, limit, locked, now) =>
      if IsSelection(s.rows, now, limit, locked, ids)
      then System(WithClaims(s.rows, ids, now), Extended(s.history, ids, Claimed(now))) else s
    case Publish(id, now) =>
      System(WithPublished(s.rows, id, now), Extended(s.history, [id], Marked(now)))
    case Fail(id, now, message) =>
      System(WithFailed(s.rows, id, now, message), Extended(s.history, [id], Marked(now)))
  }

  ghost function Exec(s: System, run: seq<Action>): System {
    if run == [] then s else Do(Exec(s, run[..|run| - 1]), run[|run| - 1])
  }

  function Claims(h: seq<Happening>): nat {
    if h == [] then 0 else Claims(h[..|h| - 1]) + if h[|h| - 1].Claimed? then 1 else 0
  }

  predicate LastIsClaim(h: seq<Happening>) {
    h != [] && h[|h| - 1].Claimed?
  }

  /** Successive claims, with no mark between, are more than a lease apart. */
  ghost predicate LeasesKept(h: seq<Happening>) {
    forall i, j :: 0 <= i && j == i + 1 < |h| && h[i].Claimed? && h[j].Claimed? ==> h[j].at > h[i].at + LEASE
  }

  ghost predicate RowInvariant(r: Row, h: seq<Happening>) {
    && r.attempts == Claims(h)
    && (r.status.Processing? <==> LastIsClaim(h))
    && (r.lockedAt.Some? <==> r.status.Processing?)
    && (r.status.Processing? ==> r.lockedAt == Some(h[|h| - 1].at) == Some(r.updatedAt))
    && (r.status.Pending? ==> r.attempts < MAX_ATTEMPTS && r.availableAt <= r.updatedAt + 300 * SECOND)
    && (r.status.Failed? ==> r.attempts >= MAX_ATTEMPTS)
    && (r.status.Published? ==> r.publishedAt.Some?)
    && LeasesKept(h)
  }

  ghost predicate Invariant(s: System) {
    && s.rows.Keys == s.history.Keys
    && forall id :: id in s.rows ==> RowInvariant(s.rows[id], s.history[id])
  }

  lemma ClaimKeepsRow(r: Row, h: seq<Happening>, now: int)
    requires RowInvariant(r, h) && Eligible(r, now)
    ensures RowInvariant(ClaimedRow(r, now), h + [Claimed(now)])
  {
    assert (h + [Claimed(now)])[..|h|] == h;
  }

  lemma MarkKeepsRow(r: Row, h: seq<Happening>, now: int, message: string)
    requires RowInvariant(r, h)
    ensures RowInvariant(PublishedRow(r, now), h + [Marked(now)])
    ensures RowInvariant(FailedRow(r, now, message), h + [Marked(now)])
  {
    assert (h + [Marked(now)])[..|h|] == h;
  }

  lemma ClaimKeeps(s: System, a: Action)
    requires Invariant(s) && a.Claim? && IsSelection(s.rows, a.now, a.limit, a.locked, a.ids)
    ensures Invariant(Do(s, a))
  {
    hide RowInvariant, WithClaims, Eligible;
    var s' := Do(s, a);
    WithClaimsAt(s.rows, a.ids, a.now, 0);
    forall id | id in s'.rows
      ensures RowInvariant(s'.rows[id], s'.history[id])
    {
      WithClaimsAt(s.rows, a.ids, a.now, id);
      if id in a.ids {
        ClaimKeepsRow(s.rows[id], s.history[id], a.now);
      }
    }
  }

  lemma MarkKeeps(s: System, a: Action)
    requires Invariant(s) && (a.Publish? || a.Fail?)
    ensures Invariant(Do(s, a))
  {
    hide RowInvariant, PublishedRow, FailedRow;
    if a.id in s.rows {
      MarkKeepsRow(s.rows[a.id], s.history[a.id], a.now, if a.Fail? then a.message else "");
    }
  }

  lemma DoKeeps(s: System, a: Action)
    requires Invariant(s)
    ensures Invariant(Do(s, a))
  {
    hide IsSelection;
    if a.Claim? && IsSelection(s.rows, a.now, a.limit, a.locked, a.ids) {
      ClaimKeeps(s, a);
    } else if a.Publish? || a.Fail? {
      MarkKeeps(s, a);
    }
  }

  /** What holds of every event in every run: attempts counts the claims; an event is processing exactly
      while its last happening is a claim, and then locked_at is that claim's time; pending events have
      had fewer than ten claims and failed ones at least ten; and successive claims are separated by a
      mark or by more than the lease. */
  lemma {:induction false} EveryRun(run: seq<Action>)
    ensures Invariant(Exec(EMPTY, run))
  {
    if run != [] {
      EveryRun(run[..|run| - 1]);
      DoKeeps(Exec(EMPTY, run[..|run| - 1]), run[|run| - 1]);
    }
  }

  /** No non-terminal event is ever stuck: five minutes after its last update it can be claimed, and any
      selection that could have taken it either does or is full of events at least as old. */
  lemma AlwaysClaimable(run: seq<Action>, id: Id, now: int)
    ensures var rows := Exec(EMPTY, run).rows;
            id in rows && !Terminal(rows[id]) && now > rows[id].updatedAt + 300 * SECOND ==>
              && Eligible(rows[id], now)
              && forall limit, locked, ids :: IsSelection(rows, now, limit, locked, ids) && id !in locked ==>
                   id in ids || (|ids| == limit && forall i :: 0 <= i < |ids| ==> rows[ids[i]].createdAt <= rows[id].createdAt)
  {
    EveryRun(run);
  }

  /** The same in numbers, for every event of every run, in microseconds: a processing event can be claimed
      exactly from more than five minutes after its lock on, a pending one exactly when it is due, and a
      published or failed one never; pending events have had fewer than ten claims and failed ones at least
      ten; and two claims with no mark between are more than five minutes apart. */
  lemma EveryRunInNumbers(run: seq<Action>, id: Id, now: int, i: nat)
    ensures var s := Exec(EMPTY, run);
            id in s.rows ==>
              && id in s.history
              && var r, h := s.rows[id], s.history[id];
              && (r.status == Processing ==> r.lockedAt.Some? && (Eligible(r, now) <==> now - r.lockedAt.value > 300_000_000))
              && (r.status == Pending ==> r.attempts < 10 && (Eligible(r, now) <==> r.availableAt <= now))
              && (r.status == Published || r.status == Failed ==> !Eligible(r, now))
              && (r.status == Failed ==> r.attempts >= 10)
              && (i + 1 < |h| && h[i].Claimed? && h[i + 1].Claimed? ==> h[i + 1].at - h[i].at > 300_000_000)
  {
    hide Exec;
    EveryRun(run);
    var s := Exec(EMPTY, run);
    if id in s.rows {
      assert RowInvariant(s.rows[id], s.history[id]);
    }
  }

  /** After a failed publish the event waits for exactly its back-off: 2^attempts seconds, but no more than
      300; after ten attempts it is never claimed again. */
  lemma BackoffIsExact(r: Row, now: int, message: string, later: int)
    ensures var f := FailedRow(r, now, message);
            && (r.attempts <= 8 ==> (Eligible(f, later) <==> later >= now + Pow2(r.attempts) * 1_000_000))
            && (r.attempts == 9 ==> (Eligible(f, later) <==> later >= now + 300_000_000))
            && (r.attempts >= 10 ==> !Eligible(f, later))
  {
    hide FailedRow;
    FailedRowIs(r, now, message);
  }

  // ---------------------------------------------------------------- is there a bound on attempts?

  lemma ExecSnoc(s: System, run: seq<Action>, a: Action)
    ensures Exec(s, run + [a]) == Do(Exec(s, run), a)
  {
    assert (run + [a])[..|run|] == run;
  }

  /** A claim of one event that is alone in the table. */
  lemma ClaimOnly(s: System, id: Id, now: int)
    requires s.rows.Keys == {id} && Eligible(s.rows[id], now)
    ensures Do(s, Claim([id], 100, {}, now)).rows == map[id := ClaimedRow(s.rows[id], now)]
  {
    WithClaimsAt(s.rows, [id], now, id);
    assert IsSelection(s.rows, now, 100, {}, [id]);
    assert WithClaims(s.rows, [id], now) == map[id := ClaimedRow(s.rows[id], now)];
  }

  /** The moment of the n-th claim of an event that nobody ever marks. */
  function Stale(n: nat): int {
    n * (LEASE + 1)
  }

  /** An event inserted and then claimed `n` times by relays that never mark it. */
  function Neglected(n: nat): seq<Action> {
    if n == 0 then [Insert(7, 1, 0)] else Neglected(n - 1) + [Claim([7], 100, {}, Stale(n))]
  }

  ghost predicate ClaimedTimes(s: System, n: nat) {
    && s.rows.Keys == {7} && s.rows[7].attempts == n
    && if n == 0 then s.rows[7] == NewRow(1, 0) else s.rows[7].status.Processing? && s.rows[7].lockedAt == Some(Stale(n))
  }

  lemma OnceMore(s: System, n: nat)
    requires ClaimedTimes(s, n)
    ensures ClaimedTimes(Do(s, Claim([7], 100, {}, Stale(n + 1))), n + 1)
  {
    hide Do;
    assert Stale(n + 1) > Stale(n) + LEASE >= LEASE;
    hide Stale;
    ClaimOnly(s, 7, Stale(n + 1));
  }

  lemma NotYetClaimed()
    ensures ClaimedTimes(Exec(EMPTY, [Insert(7, 1, 0)]), 0)
  {
    ExecNothing(EMPTY);
    ExecSnoc(EMPTY, [], Insert(7, 1, 0));
    hide Exec;
    assert [] + [Insert(7, 1, 0)] == [Insert(7, 1, 0)];
  }

  /** There is no bound: reclaiming a stale event does not look at its attempts. */
  lemma {:induction false} AttemptsHaveNoBound(n: nat)
    ensures ClaimedTimes(Exec(EMPTY, Neglected(n)), n)
  {
    hide Exec, ClaimedTimes, Do, Stale;
    if n == 0 {
      NotYetClaimed();
    } else {
      AttemptsHaveNoBound(n - 1);
      OnceMore(Exec(EMPTY, Neglected(n - 1)), n - 1);
      ExecSnoc(EMPTY, Neglected(n - 1), Claim([7], 100, {}, Stale(n)));
    }
  }

  /** The action claims an event again that was left processing after its tenth attempt or later. */
  ghost predicate ReclaimsSpent(s: System, a: Action, id: Id) {
    && a.Claim? && IsSelection(s.rows, a.now, a.limit, a.locked, a.ids) && id in a.ids
    && id in s.rows && s.rows[id].status.Processing? && s.rows[id].attempts >= 10
  }

  predicate PastMax(s: System, id: Id) {
    id in s.rows && s.rows[id].attempts > 10
  }

  lemma StepPastMax(s: System, a: Action, id: Id)
    requires Invariant(s)
    ensures PastMax(Do(s, a), id) <==> PastMax(s, id) || ReclaimsSpent(s, a, id)
  {
    if a.Claim? && IsSelection(s.rows, a.now, a.limit, a.locked, a.ids) {
      WithClaimsAt(s.rows, a.ids, a.now, id);
      if id in a.ids {
        assert RowInvariant(s.rows[id], s.history[id]);
      }
    }
  }

  ghost predicate ReclaimedAt(run: seq<Action>, i: nat, id: Id) {
    i < |run| && ReclaimsSpent(Exec(EMPTY, run[..i]), run[i], id)
  }

  lemma ReclaimedAtSnoc(run: seq<Action>, a: Action, i: nat, id: Id)
    ensures ReclaimedAt(run + [a], i, id)
       <==> ReclaimedAt(run, i, id) || (i == |run| && ReclaimsSpent(Exec(EMPTY, run), a, id))
  {
    hide Exec, ReclaimsSpent;
    if i <= |run| {
      assert (run + [a])[..i] == run[..i] && run[..|run|] == run;
    }
  }

  /** In every run an event has had more than ten attempts exactly if somebody reclaimed it while it was
      processing with ten attempts or more; everything else keeps to the limit. */
  lemma {:induction false} PastMaxIffReclaimed(run: seq<Action>, id: Id)
    ensures PastMax(Exec(EMPTY, run), id) <==> exists i: nat :: ReclaimedAt(run, i, id)
  {
    if run == [] {
      ExecNothing(EMPTY);
    } else {
      hide *;
      var front, a := run[..|run| - 1], run[|run| - 1];
      assert run == front + [a];
      PastMaxIffReclaimed(front, id);
      EveryRun(front);
      StepPastMax(Exec(EMPTY, front), a, id);
      ExecSnoc(EMPTY, front, a);
      forall i: nat
        ensures ReclaimedAt(run, i, id)
           <==> ReclaimedAt(front, i, id) || (i == |front| && ReclaimsSpent(Exec(EMPTY, front), a, id))
      {
        ReclaimedAtSnoc(front, a, i, id);
      }
      assert ReclaimsSpent(Exec(EMPTY, front), a, id) ==> ReclaimedAt(run, |front|, id);
      assert (exists i: nat :: ReclaimedAt(front, i, id)) ==> exists i: nat :: ReclaimedAt(run, i, id) by {
        if i: nat :| ReclaimedAt(front, i, id) {
          assert ReclaimedAt(run, i, id);
        }
      }
    }
  }

  lemma ExecNothing(s: System)
    ensures Exec(s, []) == s
  {
  }

  // ---------------------------------------------------------------- are published and failed final?

  const LATE_RUN := [Insert(7, 1, 0)] + [Claim([7], 100, {}, 0)] + [Claim([7], 100, {}, LEASE + 1)]
                    + [Publish(7, LEASE + 2)]
  const LATE_FAILURE := Fail(7, LEASE + 3, "publish event: context canceled")

  /** The statement of a failure mark has no guard on the status, so one that reaches the table late brings a
      published event back: A claims and stalls past the lease, B claims, publishes and marks, and then
      A's failure mark arrives.  The relay loop itself issues its failure marks only once its context is
      done, and with that context, so this needs a caller whose context is alive. */
  lemma PublishedCanComeBack()
    ensures var s := Exec(EMPTY, LATE_RUN);
            && 7 in s.rows && s.rows[7].status == Published
            && 7 in Do(s, LATE_FAILURE).rows && Do(s, LATE_FAILURE).rows[7].status == Pending
  {
    hide Exec;
    ExecNothing(EMPTY);
    var r1, r2 := [Insert(7, 1, 0)], [Insert(7, 1, 0)] + [Claim([7], 100, {}, 0)];
    ExecSnoc(EMPTY, [], Insert(7, 1, 0));
    assert [] + r1 == r1;
    ExecSnoc(EMPTY, r1, Claim([7], 100, {}, 0));
    ExecSnoc(EMPTY, r2, Claim([7], 100, {}, LEASE + 1));
    ExecSnoc(EMPTY, r2 + [Claim([7], 100, {}, LEASE + 1)], Publish(7, LEASE + 2));
    var s1, s2 := Exec(EMPTY, r1), Exec(EMPTY, r2);
    assert s1.rows == map[7 := NewRow(1, 0)];
    assert s2.rows == map[7 := ClaimedRow(NewRow(1, 0), 0)] by { ClaimOnly(s1, 7, 0); }
    ClaimOnly(s2, 7, LEASE + 1);
    hide IsSelection, WithClaims;
  }

  /** In every run, exactly two kinds of step change the status of a terminal event: a failure mark on a
      published one and a publication mark on a failed one. */
  lemma TerminalChanges(run: seq<Action>, a: Action, id: Id)
    ensures var s := Exec(EMPTY, run);
            id in s.rows && Terminal(s.rows[id]) ==>
              && id in Do(s, a).rows
              && (Do(s, a).rows[id].status != s.rows[id].status <==>
                   || (a.Fail? && a.id == id && s.rows[id].status.Published?)
                   || (a.Publish? && a.id == id && s.rows[id].status.Failed?))
  {
    EveryRun(run);
    var s := Exec(EMPTY, run);
    if a.Claim? && IsSelection(s.rows, a.now, a.limit, a.locked, a.ids) {
      WithClaimsAt(s.rows, a.ids, a.now, id);
    }
  }
}
