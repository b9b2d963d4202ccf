/** What a process can still deliver: from any reachable state, with the relay and the workers going on
  without crash or handler error while the context is alive, and after a restart. */
module Settling {
  import opened Options
  import opened Outbox
  import opened Wallets
  import opened Delivery

  /** Events neither published nor failed. */
  function Unfinished(rows: Table): set<Id> {
    set e | e in rows && !Terminal(rows[e])
  }

  predicate NoneFailed(s: State) {
    forall e :: e in s.rows ==> !s.rows[e].status.Failed?
  }

  /** Nothing is left to do. */
  predicate Drained(s: State) {
    s.queue == [] && s.inFlight == map[] && Unfinished(s.rows) == {}
  }

  /** The steps of a relay and of workers that meet no trouble. */
  predicate Forward(a: Action) {
    a.Claim? || a.Enqueue? || (a.Mark? && a.effect) || a.Take? || (a.Handle? && a.ending.Completed?)
  }

  function Stamp(a: Action): Option<int> {
    match a
    case Register(_, _, now) => Some(now)
    case Claim(_, now) => Some(now)
    case ClaimUnreported(_, now) => Some(now)
    case EnqueueRefused(_, now, _) => Some(now)
    case Mark(_, now) => Some(now)
    case _ => None
  }

  predicate AllBy(run: seq<Action>, now: int) {
    forall i :: 0 <= i < |run| && Stamp(run[i]).Some? ==> Stamp(run[i]).value <= now
  }

  /** A forward step the process can take after the run: it finds something to do, the context is alive, and
      the clock has not run backwards.  Once the context is done the relay and the workers return, and
      their statements do not reach the database. */
  ghost predicate StepsOn(run: seq<Action>, a: Action) {
    var s := Exec(START, run);
    && Forward(a) && Possible(s, a) && (a.Claim? ==> a.ids != [])
    && !s.stopping
    && (Stamp(a).Some? ==> AllBy(run, Stamp(a).value))
  }

  /** After the run the process goes on by such steps. */
  ghost predicate GoesOn(run: seq<Action>, more: seq<Action>) {
    forall i :: 0 <= i < |more| ==> StepsOn(run + more[..i], more[i])
  }

  /** The same, but the process may also crash and be started again. */
  ghost predicate GoesOnWithRestarts(run: seq<Action>, more: seq<Action>) {
    forall i :: 0 <= i < |more| ==> more[i].Crash? || StepsOn(run + more[..i], more[i])
  }

  lemma StaysPut(run: seq<Action>)
    ensures GoesOn(run, [])
  {
  }

  lemma GoesOnFrom(run: seq<Action>, a: Action, rest: seq<Action>)
    requires StepsOn(run, a) && GoesOn(run + [a], rest)
    ensures GoesOn(run, [a] + rest)
  {
    hide StepsOn;
    var more := [a] + rest;
    forall i | 0 <= i < |more|
      ensures StepsOn(run + more[..i], more[i])
    {
      if i == 0 {
        assert run + more[..0] == run;
      } else {
        assert run + more[..i] == run + [a] + rest[..i - 1];
      }
    }
  }

  lemma AllButLast(run: seq<Action>, more: seq<Action>)
    requires GoesOn(run, more) && more != []
    ensures var front, a := more[..|more| - 1], more[|more| - 1];
            && GoesOn(run, front) && StepsOn(run + front, a) && run + more == run + front + [a]
            && Exec(START, run + more) == Do(Exec(START, run + front), a)
  {
    hide StepsOn, Exec, Do;
    var front, a := more[..|more| - 1], more[|more| - 1];
    assert forall i :: 0 <= i <= |front| ==> more[..i] == front[..i];
    assert run + more == run + front + [a];
    ExecSnoc(START, run + front, a);
  }

  // ---------------------------------------------------------------- every step does some of the work

  function Phase(r: Relay): nat {
    match r
    case Idle => 2
    case Busy(_, enqueued) => if enqueued then 0 else 1
  }

  /** The steps there can still be: up to seven for an event, three for a stage of the relay, and one for
      each thing a message has to go through. */
  function Work(s: State): nat {
    7 * |Unfinished(s.rows)| + 3 * Phase(s.relay) + 2 * |s.queue| + |s.inFlight|
  }

  lemma ClaimFinishesNothing(t: Table, ids: seq<Id>, now: int)
    requires IsSelection(t, now, BATCH, {}, ids)
    ensures Unfinished(WithClaims(t, ids, now)) == Unfinished(t)
  {
    forall e
      ensures e in WithClaims(t, ids, now) <==> e in t
      ensures e in t ==> WithClaims(t, ids, now)[e] == if e in ids then ClaimedRow(t[e], now) else t[e]
    {
      WithClaimsAt(t, ids, now, e);
    }
  }

  lemma RemovingOne<K, V>(m: map<K, V>, k: K)
    requires k in m
    ensures |m - {k}| == |m| - 1
  {
    assert (m - {k}).Keys == m.Keys - {k};
    assert |m - {k}| == |(m - {k}).Keys| && |m| == |m.Keys|;
  }

  lemma AddingOne<K, V>(m: map<K, V>, k: K, v: V)
    requires k !in m
    ensures |m[k := v]| == |m| + 1
  {
    assert m[k := v].Keys == m.Keys + {k};
    assert |m[k := v]| == |m[k := v].Keys| && |m| == |m.Keys|;
  }

  lemma ClaimWorks(s: State, a: Action)
    requires a.Claim? && a.ids != [] && Possible(s, a)
    ensures Work(Do(s, a)) < Work(s)
  {
    ClaimFinishesNothing(s.rows, a.ids, a.now);
  }

  lemma MarkWorks(s: State, a: Action)
    requires GoodRelay(s) && a.Mark? && a.effect && Possible(s, a)
    ensures Work(Do(s, a)) < Work(s)
  {
    assert Unfinished(Do(s, a).rows) == Unfinished(s.rows) - {s.relay.batch[0]};
    assert s.relay.batch[0] in Unfinished(s.rows);
  }

  lemma BusWorks(s: State, a: Action)
    requires (a.Take? || a.Handle? || a.Enqueue?) && Possible(s, a)
    ensures Work(Do(s, a)) < Work(s)
  {
    if a.Take? {
      AddingOne(s.inFlight, a.worker, s.queue[0]);
    } else if a.Handle? {
      RemovingOne(s.inFlight, a.worker);
    }
  }

  lemma StepWorks(run: seq<Action>, a: Action)
    requires StepsOn(run, a)
    ensures Work(Do(Exec(START, run), a)) < Work(Exec(START, run))
    ensures !Do(Exec(START, run), a).stopping
  {
    var s := Exec(START, run);
    EveryRun(run);
    ForwardKeepsContext(s, a);
    hide Do, Exec, Work, AllBy;
    if a.Claim? {
      ClaimWorks(s, a);
    } else if a.Mark? {
      MarkWorks(s, a);
    } else {
      BusWorks(s, a);
    }
  }

  lemma ForwardKeepsContext(s: State, a: Action)
    requires Forward(a)
    ensures Do(s, a).stopping == s.stopping
  {
  }

  /** However the process goes on, it does so for no more steps than there is work. */
  lemma {:induction false} GoesOnWithinWork(run: seq<Action>, more: seq<Action>)
    requires GoesOn(run, more)
    ensures |more| + Work(Exec(START, run + more)) <= Work(Exec(START, run))
    ensures !Exec(START, run).stopping ==> !Exec(START, run + more).stopping
  {
    hide *;
    if more == [] {
      assert run + more == run;
    } else {
      var front, a := more[..|more| - 1], more[|more| - 1];
      AllButLast(run, more);
      GoesOnWithinWork(run, front);
      StepWorks(run + front, a);
    }
  }

  // ---------------------------------------------------------------- there is a step until all is done

  /** Every unfinished event that the relay does not hold can be claimed. */
  predicate Ready(s: State, now: int) {
    forall e :: e in s.rows && !Terminal(s.rows[e]) && (s.relay.Busy? ==> e !in s.relay.batch) ==> Eligible(s.rows[e], now)
  }

  /** A time by which every one of these events, if unfinished, can be claimed. */
  lemma {:induction false} LateEnough(t: Table, s: set<Id>) returns (now: int)
    requires s <= t.Keys
    ensures forall e :: e in s ==> now > t[e].updatedAt + 300 * SECOND
    decreases s
  {
    if s == {} {
      now := 0;
    } else {
      var e :| e in s;
      now := LateEnough(t, s - {e});
      if now <= t[e].updatedAt + 300 * SECOND {
        now := t[e].updatedAt + 300 * SECOND + 1;
      }
    }
  }

  /** A time no step of the run is later than. */
  function LastStamp(run: seq<Action>): (now: int)
    ensures AllBy(run, now)
  {
    if run == [] then 0 else
    var before, last := LastStamp(run[..|run| - 1]), Stamp(run[|run| - 1]);
    if last.Some? && last.value > before then last.value else before
  }

  lemma MomentToGoOn(run: seq<Action>) returns (now: int)
    ensures AllBy(run, now) && Ready(Exec(START, run), now)
  {
    hide Exec, Eligible;
    var s := Exec(START, run);
    now := LateEnough(s.rows, s.rows.Keys);
    if now < LastStamp(run) {
      now := LastStamp(run);
    }
    forall e | e in s.rows && !Terminal(s.rows[e])
      ensures Eligible(s.rows[e], now)
    {
      NeverStuck(run, e, now);
    }
  }

  lemma ClaimKeepsReady(s: State, a: Action, now: int)
    requires a.Claim? && a.ids != [] && Possible(s, a) && Ready(s, now)
    ensures Ready(Do(s, a), now)
  {
    forall e | e in s.rows
      ensures e in WithClaims(s.rows, a.ids, a.now)
      ensures WithClaims(s.rows, a.ids, a.now)[e] == if e in a.ids then ClaimedRow(s.rows[e], a.now) else s.rows[e]
    {
      WithClaimsAt(s.rows, a.ids, a.now, e);
    }
    WithClaimsAt(s.rows, a.ids, a.now, 0);
  }

  lemma StepKeepsReady(run: seq<Action>, a: Action, now: int)
    requires StepsOn(run, a) && Ready(Exec(START, run), now)
    ensures Ready(Do(Exec(START, run), a), now)
  {
    var s := Exec(START, run);
    EveryRun(run);
    hide Exec, Eligible, AllBy;
    if a.Claim? {
      ClaimKeepsReady(s, a, now);
    } else if a.Mark? {
      assert forall e :: e in s.relay.batch ==> e == s.relay.batch[0] || e in s.relay.batch[1..];
    }
  }

  /** What a state with something left to do can do at such a time. */
  lemma WayForward(s: State, now: int) returns (a: Action)
    requires GoodRelay(s) && !Drained(s) && Ready(s, now)
    ensures Forward(a) && Possible(s, a) && (a.Claim? ==> a.ids != [])
    ensures Stamp(a) == None || Stamp(a) == Some(now)
  {
    if s.inFlight != map[] {
      var w :| w in s.inFlight;
      a := Handle(w, Completed, 0);
    } else if s.queue != [] {
      a := Take(0);
    } else if s.relay.Busy? {
      a := if s.relay.enqueued then Mark(true, now) else Enqueue;
    } else {
      var ids := SelectionExists(s.rows, now, BATCH, {});
      var e :| e in Unfinished(s.rows);
      assert Eligible(s.rows[e], now);
      a := Claim(ids, now);
      assert ids != [];
    }
  }

  lemma NextStep(run: seq<Action>, now: int) returns (a: Action)
    requires !Drained(Exec(START, run)) && !Exec(START, run).stopping
    requires Ready(Exec(START, run), now) && AllBy(run, now)
    ensures StepsOn(run, a) && AllBy(run + [a], now)
  {
    EveryRun(run);
    hide Exec, Drained, Ready, Possible;
    a := WayForward(Exec(START, run), now);
  }

  /** A process whose context is alive can work off everything it has, all at one late enough moment. */
  lemma {:induction false} DrainsFrom(run: seq<Action>, now: int) returns (more: seq<Action>)
    requires !Exec(START, run).stopping && Ready(Exec(START, run), now) && AllBy(run, now)
    ensures GoesOn(run, more) && Drained(Exec(START, run + more))
    decreases Work(Exec(START, run))
  {
    hide *;
    if Drained(Exec(START, run)) {
      more := [];
      assert run + more == run;
      StaysPut(run);
    } else {
      var a := NextStep(run, now);
      ExecSnoc(START, run, a);
      StepWorks(run, a);
      StepKeepsReady(run, a, now);
      var rest := DrainsFrom(run + [a], now);
      more := [a] + rest;
      GoesOnFrom(run, a, rest);
      assert run + more == run + [a] + rest;
    }
  }

  lemma CanDrain(run: seq<Action>) returns (more: seq<Action>)
    requires !Exec(START, run).stopping
    ensures GoesOn(run, more) && Drained(Exec(START, run + more))
  {
    hide *;
    var now := MomentToGoOn(run);
    more := DrainsFrom(run, now);
  }

  lemma StepHasWork(run: seq<Action>, a: Action)
    requires StepsOn(run, a)
    ensures !Drained(Exec(START, run))
  {
    var s := Exec(START, run);
    EveryRun(run);
    hide Exec, AllBy;
    if a.Claim? {
      assert a.ids[0] in Unfinished(s.rows);
    } else if a.Enqueue? || a.Mark? {
      assert s.relay.batch[0] in Unfinished(s.rows);
    }
  }

  /** With the context alive, however the process goes on it takes at most as many steps as there is work,
      and it has a next step, by waiting long enough, exactly until nothing is left to do: every way of
      going on ends with everything done. */
  lemma EveryWayDrains(run: seq<Action>, more: seq<Action>)
    requires GoesOn(run, more) && !Exec(START, run).stopping
    ensures |more| <= Work(Exec(START, run))
    ensures (forall a :: !StepsOn(run + more, a)) <==> Drained(Exec(START, run + more))
  {
    hide Exec, Drained, StepsOn, Work, GoesOn, Ready;
    GoesOnWithinWork(run, more);
    if Drained(Exec(START, run + more)) {
      forall a
        ensures !StepsOn(run + more, a)
      {
        if StepsOn(run + more, a) {
          StepHasWork(run + more, a);
        }
      }
    } else {
      var now := MomentToGoOn(run + more);
      var a := NextStep(run + more, now);
      assert StepsOn(run + more, a);
    }
  }

  // ---------------------------------------------------------------- when everything can be delivered

  lemma ForwardFailsNothing(s: State, a: Action)
    requires Forward(a) && NoneFailed(s)
    ensures NoneFailed(Do(s, a))
  {
    if a.Claim? && Possible(s, a) {
      ClaimFailsNothing(s.rows, a.ids, a.now);
    }
  }

  lemma ClaimFailsNothing(t: Table, ids: seq<Id>, now: int)
    requires IsSelection(t, now, BATCH, {}, ids)
    ensures forall e :: e in WithClaims(t, ids, now) ==>
              e in t && (WithClaims(t, ids, now)[e].status.Failed? ==> t[e].status.Failed?)
  {
    forall e
      ensures e in WithClaims(t, ids, now) <==> e in t
      ensures e in t ==> WithClaims(t, ids, now)[e] == if e in ids then ClaimedRow(t[e], now) else t[e]
    {
      WithClaimsAt(t, ids, now, e);
    }
  }

  lemma StepIsForward(run: seq<Action>, a: Action)
    requires StepsOn(run, a)
    ensures Forward(a)
  {
  }

  lemma {:induction false} NothingFails(run: seq<Action>, more: seq<Action>)
    requires GoesOn(run, more) && NoneFailed(Exec(START, run))
    ensures NoneFailed(Exec(START, run + more))
  {
    hide *;
    if more == [] {
      assert run + more == run;
    } else {
      var front, a := more[..|more| - 1], more[|more| - 1];
      AllButLast(run, more);
      NothingFails(run, front);
      StepIsForward(run + front, a);
      ForwardFailsNothing(Exec(START, run + front), a);
    }
  }

  lemma {:induction false} FailedStays(run: seq<Action>, more: seq<Action>, e: Id)
    requires e in Exec(START, run).rows && Exec(START, run).rows[e].status.Failed?
    ensures e in Exec(START, run + more).rows && Exec(START, run + more).rows[e].status.Failed?
  {
    if more == [] {
      assert run + more == run;
    } else {
      hide Do;
      var front, a := more[..|more| - 1], more[|more| - 1];
      FailedStays(run, front, e);
      TerminalIsFinal(run + front, a, e);
      assert run + more == run + front + [a];
      ExecSnoc(START, run + front, a);
    }
  }

  lemma FailedNeverSettles(run: seq<Action>, more: seq<Action>)
    requires !NoneFailed(Exec(START, run))
    ensures !Settled(Exec(START, run + more))
  {
    hide Exec;
    var e :| e in Exec(START, run).rows && Exec(START, run).rows[e].status.Failed?;
    FailedStays(run, more, e);
  }

  lemma DrainedIsSettled(s: State)
    requires Drained(s) && NoneFailed(s)
    ensures Settled(s)
  {
    forall e | e in s.rows
      ensures s.rows[e].status.Published?
    {
      assert e !in Unfinished(s.rows);
    }
  }

  lemma CanSettle(run: seq<Action>) returns (more: seq<Action>)
    requires NoneFailed(Exec(START, run)) && !Exec(START, run).stopping
    ensures GoesOn(run, more) && Settled(Exec(START, run + more))
  {
    hide *;
    more := CanDrain(run);
    NothingFails(run, more);
    DrainedIsSettled(Exec(START, run + more));
  }

  lemma FirstStepNeedsContext(run: seq<Action>, more: seq<Action>)
    requires GoesOn(run, more) && more != []
    ensures !Exec(START, run).stopping
  {
    assert run + more[..0] == run;
    assert StepsOn(run + more[..0], more[0]);
  }

  /** After any run, the process going on as it is can get every event published and handled exactly when
      that is already so, or its context is alive and no event has failed for good. */
  lemma CanSettleIff(run: seq<Action>)
    ensures (exists more :: GoesOn(run, more) && Settled(Exec(START, run + more)))
       <==> Settled(Exec(START, run)) || (NoneFailed(Exec(START, run)) && !Exec(START, run).stopping)
  {
    hide Exec, Settled, NoneFailed, GoesOn;
    assert run + [] == run;
    StaysPut(run);
    if NoneFailed(Exec(START, run)) && !Exec(START, run).stopping {
      var more := CanSettle(run);
      assert GoesOn(run, more) && Settled(Exec(START, run + more));
    } else if Settled(Exec(START, run)) {
      assert Settled(Exec(START, run + []));
    } else {
      forall more | GoesOn(run, more)
        ensures !Settled(Exec(START, run + more))
      {
        if more != [] {
          FirstStepNeedsContext(run, more);
          FailedNeverSettles(run, more);
        }
      }
    }
  }

  lemma RestartIs(run: seq<Action>)
    ensures var s, s' := Exec(START, run), Exec(START, run + [Crash]);
            && s'.rows == s.rows && s'.users == s.users && s'.wallets == s.wallets && !s'.stopping
            && s'.queue == [] && s'.inFlight == map[] && s'.relay.Idle?
  {
    hide Exec;
    ExecSnoc(START, run, Crash);
  }

  /** After any run and a restart, it can exactly when no event has failed for good. */
  lemma CanSettleAfterRestartIff(run: seq<Action>)
    ensures (exists more :: GoesOn(run + [Crash], more) && Settled(Exec(START, run + [Crash] + more)))
       <==> NoneFailed(Exec(START, run))
  {
    hide Exec, Settled, GoesOn;
    RestartIs(run);
    if NoneFailed(Exec(START, run)) {
      var more := CanSettle(run + [Crash]);
      assert GoesOn(run + [Crash], more) && Settled(Exec(START, run + [Crash] + more));
    } else {
      forall more
        ensures !Settled(Exec(START, run + [Crash] + more))
      {
        FailedNeverSettles(run + [Crash], more);
      }
    }
  }

  // ---------------------------------------------------------------- the failure marks of the program

  /** The relay's failure marks follow a Publish that failed because the context is done, and are sent with
      that same context, so that none reaches the table. */
  predicate FailureMarksLost(run: seq<Action>) {
    forall i :: 0 <= i < |run| && run[i].EnqueueRefused? ==> !run[i].effect
  }

  lemma StepFailsNothing(s: State, a: Action)
    requires NoneFailed(s) && (a.EnqueueRefused? ==> !a.effect)
    ensures NoneFailed(Do(s, a))
  {
    if (a.Claim? || a.ClaimUnreported?) && Possible(s, a) {
      ClaimFailsNothing(s.rows, a.ids, a.now);
    }
  }

  /** No event of the program ever fails for good. */
  lemma {:induction false} NoEventFails(run: seq<Action>)
    requires FailureMarksLost(run)
    ensures NoneFailed(Exec(START, run))
  {
    if run != [] {
      hide Do, NoneFailed;
      NoEventFails(run[..|run| - 1]);
      StepFailsNothing(Exec(START, run[..|run| - 1]), run[|run| - 1]);
    }
  }

  lemma LostThroughRestart(run: seq<Action>)
    requires FailureMarksLost(run)
    ensures FailureMarksLost(run + [Crash])
  {
  }

  /** So after any run of the program and a restart, however it goes on it ends, after at most as many steps
      as there is work, with every event published and handled; and it can go on until then. */
  lemma ProgramSettles(run: seq<Action>, more: seq<Action>)
    requires FailureMarksLost(run) && GoesOn(run + [Crash], more)
    ensures |more| <= Work(Exec(START, run + [Crash]))
    ensures (forall a :: !StepsOn(run + [Crash] + more, a)) <==> Settled(Exec(START, run + [Crash] + more))
  {
    hide *;
    RestartIs(run);
    LostThroughRestart(run);
    NoEventFails(run + [Crash]);
    NothingFails(run + [Crash], more);
    EveryWayDrains(run + [Crash], more);
    var s := Exec(START, run + [Crash] + more);
    if Drained(s) {
      DrainedIsSettled(s);
    } else if Settled(s) {
      SettledIsDrained(s);
    }
  }

  lemma SettledIsDrained(s: State)
    requires Settled(s)
    ensures Drained(s)
  {
  }

  /** A registration and then the end of the context: a state with work left that nothing but a restart gets
      on with. */
  lemma StoppedWithWorkLeft()
    ensures var s := Exec(START, [Register(1, 7, 0), Stop]);
            s.stopping && NoneFailed(s) && !Settled(s) && Registered(s, 1) && !HasWallet(s, 1)
  {
    ExecSnoc(START, [Register(1, 7, 0)], Stop);
    ExecSnoc(START, [], Register(1, 7, 0));
    hide Exec;
    ExecNothing(START);
    assert [] + [Register(1, 7, 0)] == [Register(1, 7, 0)];
    assert [Register(1, 7, 0)] + [Stop] == [Register(1, 7, 0), Stop];
    var s := Exec(START, [Register(1, 7, 0), Stop]);
    assert 7 in s.rows && s.rows[7].status.Pending?;
  }

  // ---------------------------------------------------------------- when one customer can get a wallet

  predicate HasWallet(s: State, u: Id) {
    (u, CURRENCY) in s.wallets
  }

  predicate OnBus(s: State, e: Id) {
    e in Events(s.queue) || e in InFlightEvents(s)
  }

  predicate Registered(s: State, u: Id) {
    u in s.users && s.users[u] in s.rows
  }

  /** The customer's event is finished, its message is gone and there is no wallet. */
  predicate Hopeless(s: State, u: Id) {
    Registered(s, u) && !HasWallet(s, u) && Terminal(s.rows[s.users[u]]) && !OnBus(s, s.users[u])
  }

  lemma BusAfter(s: State, a: Action, e: Id)
    requires !OnBus(s, e) && !(a.Enqueue? && s.relay.Busy? && s.relay.batch != [] && s.relay.batch[0] == e)
    ensures !OnBus(Do(s, a), e)
  {
    var s' := Do(s, a);
    if a.Take? && Possible(s, a) {
      assert s.queue == [s.queue[0]] + s'.queue;
      assert s.queue[0].event in Events(s.queue);
      forall w | w in s'.inFlight
        ensures s'.inFlight[w].event != e
      {
        assert w != a.worker ==> s.inFlight[w].event in InFlightEvents(s);
      }
    }
    if a.Handle? && Possible(s, a) {
      forall w | w in s'.inFlight
        ensures s'.inFlight[w].event != e
      {
        assert s.inFlight[w].event in InFlightEvents(s);
      }
    }
  }

  lemma HandlesSomebodyElse(s: State, a: Action, u: Id)
    requires Invariant(s) && Hopeless(s, u) && a.Handle? && Possible(s, a)
    ensures !HasWallet(Do(s, a), u)
  {
    var m := s.inFlight[a.worker];
    assert m.event in InFlightEvents(s);
    assert GoodMessage(s, m);
  }

  lemma StepStaysHopeless(s: State, a: Action, u: Id)
    requires Invariant(s) && Hopeless(s, u)
    ensures Hopeless(Do(s, a), u)
  {
    hide Do, Accounted;
    StepKeepsTerminal(s, a, s.users[u]);
    BusAfter(s, a, s.users[u]);
    UsersAfter(s, a, u);
    if a.Handle? && Possible(s, a) {
      HandlesSomebodyElse(s, a, u);
    } else {
      WalletsAfter(s, a);
    }
  }

  lemma UsersAfter(s: State, a: Action, u: Id)
    requires u in s.users
    ensures u in Do(s, a).users && Do(s, a).users[u] == s.users[u]
  {
  }

  lemma WalletsAfter(s: State, a: Action)
    requires !(a.Handle? && Possible(s, a))
    ensures Do(s, a).wallets == s.wallets
  {
  }

  /** Whatever happens from there, crashes and restarts included, such a customer never gets a wallet. */
  lemma {:induction false} StaysHopeless(run: seq<Action>, more: seq<Action>, u: Id)
    requires Hopeless(Exec(START, run), u)
    ensures Hopeless(Exec(START, run + more), u)
  {
    if more == [] {
      assert run + more == run;
    } else {
      hide Do, Hopeless, Invariant;
      var front, a := more[..|more| - 1], more[|more| - 1];
      StaysHopeless(run, front, u);
      EveryRun(run + front);
      assert run + more == run + front + [a];
      ExecSnoc(START, run + front, a);
      StepStaysHopeless(Exec(START, run + front), a, u);
    }
  }

  /** The customer's event has led to a wallet, has its message on the bus, or is yet to be queued. */
  predicate Tracked(s: State, u: Id) {
    && Registered(s, u)
    && var e := s.users[u];
    || HasWallet(s, u)
    || OnBus(s, e)
    || (!Terminal(s.rows[e]) && !(s.relay.Busy? && s.relay.enqueued && s.relay.batch != [] && s.relay.batch[0] == e))
  }

  lemma ClaimKeepsTracked(s: State, a: Action, u: Id)
    requires Invariant(s) && a.Claim? && Possible(s, a) && Tracked(s, u)
    ensures Tracked(Do(s, a), u)
  {
    WithClaimsAt(s.rows, a.ids, a.now, s.users[u]);
  }

  lemma EnqueueKeepsTracked(s: State, u: Id)
    requires Invariant(s) && Possible(s, Enqueue) && Tracked(s, u)
    ensures Tracked(Do(s, Enqueue), u)
  {
    var s' := Do(s, Enqueue);
    assert s'.queue[|s.queue|] == Message(s.relay.batch[0], s.rows[s.relay.batch[0]].customer);
    assert s'.queue[|s.queue|].event in Events(s'.queue);
    assert forall m :: m in s.queue ==> m in s'.queue;
  }

  lemma HandledGetsWallet(s: State, a: Action)
    requires Invariant(s) && a.Handle? && a.ending.Completed? && Possible(s, a)
    ensures s.inFlight[a.worker].event in s.rows
    ensures HasWallet(Do(s, a), s.rows[s.inFlight[a.worker].event].customer)
  {
    assert GoodMessage(s, s.inFlight[a.worker]);
  }

  lemma HandleKeepsTracked(s: State, a: Action, u: Id)
    requires Invariant(s) && a.Handle? && a.ending.Completed? && Possible(s, a) && Tracked(s, u)
    ensures Tracked(Do(s, a), u)
  {
    var e := s.users[u];
    var s' := Do(s, a);
    HandledGetsWallet(s, a);
    if e in InFlightEvents(s) && s.inFlight[a.worker].event != e {
      var w :| w in s.inFlight && s.inFlight[w].event == e;
      assert s'.inFlight[w].event in InFlightEvents(s');
    }
  }

  lemma ForwardKeepsTracked(s: State, a: Action, u: Id)
    requires Invariant(s) && Forward(a) && Tracked(s, u)
    ensures Tracked(Do(s, a), u)
  {
    if Possible(s, a) {
      match a {
        case Claim(_, _) => ClaimKeepsTracked(s, a, u);
        case Enqueue => EnqueueKeepsTracked(s, u);
        case Handle(_, _, _) => HandleKeepsTracked(s, a, u);
        case Take(worker) => TakeKeepsEvents(s, worker);
        case Mark(_, _) => StaysOnBus(s, a);
      }
    }
  }

  lemma StaysOnBus(s: State, a: Action)
    requires a.Mark?
    ensures Do(s, a).queue == s.queue && Do(s, a).inFlight == s.inFlight
  {
  }

  lemma {:induction false} RunKeepsTracked(run: seq<Action>, more: seq<Action>, u: Id)
    requires GoesOn(run, more) && Tracked(Exec(START, run), u)
    ensures Tracked(Exec(START, run + more), u)
  {
    hide *;
    if more == [] {
      assert run + more == run;
    } else {
      var front, a := more[..|more| - 1], more[|more| - 1];
      AllButLast(run, more);
      RunKeepsTracked(run, front, u);
      EveryRun(run + front);
      StepIsForward(run + front, a);
      ForwardKeepsTracked(Exec(START, run + front), a, u);
    }
  }

  lemma DrainedHasWallet(s: State, u: Id)
    requires Drained(s) && Tracked(s, u)
    ensures HasWallet(s, u)
  {
    assert s.users[u] !in Unfinished(s.rows);
  }

  lemma GoingOnIsGoingOn(run: seq<Action>, more: seq<Action>)
    requires GoesOn(run, more)
    ensures GoesOnWithRestarts(run, more)
  {
  }

  lemma CrashFirst(run: seq<Action>, more: seq<Action>)
    requires GoesOn(run + [Crash], more)
    ensures GoesOnWithRestarts(run, [Crash] + more)
  {
    hide StepsOn;
    var whole := [Crash] + more;
    forall i | 0 < i < |whole|
      ensures whole[i] == more[i - 1] && run + whole[..i] == run + [Crash] + more[..i - 1]
    {
    }
  }

  /** The process gets the wallet made: going on as it is, or after a restart that lets the event be claimed
      again. */
  lemma WalletCanCome(run: seq<Action>, u: Id) returns (more: seq<Action>)
    requires var s := Exec(START, run);
             && Registered(s, u)
             && (|| HasWallet(s, u)
                 || !Terminal(s.rows[s.users[u]])
                 || (!s.stopping && OnBus(s, s.users[u])))
    ensures GoesOnWithRestarts(run, more) && HasWallet(Exec(START, run + more), u)
  {
    hide Exec, Drained, GoesOn, OnBus;
    var s := Exec(START, run);
    if HasWallet(s, u) {
      more := [];
      assert run + more == run;
    } else if !Terminal(s.rows[s.users[u]]) {
      RestartIs(run);
      var rest := CanDrain(run + [Crash]);
      RunKeepsTracked(run + [Crash], rest, u);
      DrainedHasWallet(Exec(START, run + [Crash] + rest), u);
      more := [Crash] + rest;
      assert run + more == run + [Crash] + rest;
      CrashFirst(run, rest);
    } else {
      more := CanDrain(run);
      RunKeepsTracked(run, more, u);
      DrainedHasWallet(Exec(START, run + more), u);
      GoingOnIsGoingOn(run, more);
    }
  }

  lemma CrashLosesHope(run: seq<Action>, u: Id)
    requires var s := Exec(START, run); Registered(s, u) && !HasWallet(s, u) && Terminal(s.rows[s.users[u]])
    ensures Hopeless(Exec(START, run + [Crash]), u)
  {
    hide Exec;
    RestartIs(run);
  }

  /** After any run, a registered customer can still come to have a wallet, by steps taken while the
      context is alive and by restarts, exactly if there is one already, or the event is neither published nor failed, or
      the context is alive and the event's message is on the queue or with a worker. */
  lemma CanHaveWalletIff(run: seq<Action>, u: Id)
    requires u in Exec(START, run).users
    ensures Registered(Exec(START, run), u)
    ensures var s := Exec(START, run);
            (exists more :: GoesOnWithRestarts(run, more) && HasWallet(Exec(START, run + more), u))
            <==> || HasWallet(s, u)
                 || !Terminal(s.rows[s.users[u]])
                 || (!s.stopping && OnBus(s, s.users[u]))
  {
    hide Exec, OnBus, HasWallet;
    EveryRun(run);
    var s := Exec(START, run);
    if HasWallet(s, u) || !Terminal(s.rows[s.users[u]]) || (!s.stopping && OnBus(s, s.users[u])) {
      var more := WalletCanCome(run, u);
      assert GoesOnWithRestarts(run, more) && HasWallet(Exec(START, run + more), u);
    } else {
      forall more | GoesOnWithRestarts(run, more)
        ensures !HasWallet(Exec(START, run + more), u)
      {
        NoWalletComes(run, more, u);
      }
    }
  }

  lemma NoWalletComes(run: seq<Action>, more: seq<Action>, u: Id)
    requires GoesOnWithRestarts(run, more)
    requires var s := Exec(START, run);
             && Registered(s, u) && !HasWallet(s, u) && Terminal(s.rows[s.users[u]])
             && (s.stopping || !OnBus(s, s.users[u]))
    ensures !HasWallet(Exec(START, run + more), u)
  {
    hide Exec, OnBus, HasWallet, Terminal;
    if Hopeless(Exec(START, run), u) {
      StaysHopeless(run, more, u);
    } else if more == [] {
      assert run + more == run;
    } else {
      assert run + more[..0] == run;
      assert more[0] == Crash;
      CrashLosesHope(run, u);
      StaysHopeless(run + [Crash], more[1..], u);
      assert run + more == run + [Crash] + more[1..];
    }
  }
}
