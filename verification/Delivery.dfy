/** From registration to wallet: the outbox relay, the in-memory bus and the wallet consumer of one
  process as a step system (internal/service/outbox_service.go, internal/events/bus.go, with the
  repositories they drive).

  A run is any sequence of actions; an action that is not possible in the state it meets changes
  nothing.  Marks may be lost, the process may stop or crash and be started again, and handlers may
  fail before or after their effect. */
module Delivery {
  import opened Options
  import opened Outbox
  import opened Wallets
  import Relays

  /** A message on the bus: the outbox event it comes from and the customer in its payload. */
  datatype Message = Message(event: Id, customer: Id)

  /** The relay between ticks, or working through a claimed batch whose first item has or has not yet
      been put on the queue. */
  datatype Relay = Idle | Busy(batch: seq<Id>, enqueued: bool)

  datatype State = State(
    users: map<Id, Id>,            // registered customers, each with the event its registration wrote
    rows: Table,
    relay: Relay,
    queue: seq<Message>,
    inFlight: map<nat, Message>,   // by worker
    wallets: Store,
    stopping: bool,                // the context is done
    lost: set<Id>)                 // events whose message a crash or a failing handler has dropped

  const QUEUE_SIZE := 1000
  const WORKERS := 4
  const BATCH := 100

  const START := State(map[], map[], Idle, [], map[], map[], false, {})

  datatype Action =
    | Register(customer: Id, event: Id, now: int)
    | Claim(ids: seq<Id>, now: int)
    | ClaimUnreported(ids: seq<Id>, now: int)         // committed, but the relay sees an error
    | Enqueue
    | EnqueueRefused(effect: bool, now: int, message: string)
    | Mark(effect: bool, now: int)
    | Take(worker: nat)
    | Handle(worker: nat, ending: Ending, newId: Id)
    | Stop
    | Crash

  function Advance(batch: seq<Id>): Relay
    requires batch != []
  {
    if |batch| == 1 then Idle else Busy(batch[1..], false)
  }

  ghost predicate Claimable(s: State, ids: seq<Id>, now: int) {
    s.relay.Idle? && IsSelection(s.rows, now, BATCH, {}, ids)
  }

  function Events(ms: seq<Message>): set<Id> {
    set m | m in ms :: m.event
  }

  function InFlightEvents(s: State): set<Id> {
    set w | w in s.inFlight :: s.inFlight[w].event
  }

  ghost predicate Possible(s: State, a: Action) {
    match a
    case Register(customer, event, _) => customer !in s.users && event !in s.rows
    case Claim(ids, now) => Claimable(s, ids, now)
    case ClaimUnreported(ids, now) => Claimable(s, ids, now)
    case Enqueue => s.relay.Busy? && s.relay.batch != [] && !s.relay.enqueued && s.relay.batch[0] in s.rows && |s.queue| < QUEUE_SIZE
    case EnqueueRefused(_, _, _) => s.relay.Busy? && s.relay.batch != [] && !s.relay.enqueued && s.stopping
    case Mark(_, _) => s.relay.Busy? && s.relay.batch != [] && s.relay.enqueued
    case Take(worker) => worker < WORKERS && worker !in s.inFlight && s.queue != []
    case Handle(worker, _, _) => worker in s.inFlight
    case Stop => true
    case Crash => true
  }

  ghost function Do(s: State, a: Action): State {
    if !Possible(s, a) then s else
    match a
    case Register(customer, event, now) =>
      s.(users := s.users[customer := event], rows := s.rows[event := NewRow(customer, now)])
    case Claim(ids, now) =>
      s.(rows := WithClaims(s.rows, ids, now), relay := if ids == [] then Idle else Busy(ids, false))
    case ClaimUnreported(ids, now) => s.(rows := WithClaims(s.rows, ids, now))
    case Enqueue =>
      s.(queue := s.queue + [Message(s.relay.batch[0], s.rows[s.relay.batch[0]].customer)],
         relay := Busy(s.relay.batch, true))
    case EnqueueRefused(effect, now, message) =>
      s.(rows := if effect then WithFailed(s.rows, s.relay.batch[0], now, message) else s.rows,
         relay := Advance(s.relay.batch))
    case Mark(effect, now) =>
      s.(rows := if effect then WithPublished(s.rows, s.relay.batch[0], now) else s.rows,
         relay := Advance(s.relay.batch))
    case Take(worker) => s.(queue := s.queue[1..], inFlight := s.inFlight[worker := s.queue[0]])
    case Handle(worker, ending, newId) =>
      var m := s.inFlight[worker];
      var ok := ending.Completed? && m.customer in s.users;
      s.(inFlight := s.inFlight - {worker},
         wallets := AfterCall(s.wallets, s.users.Keys, WalletRequest(Some(m.customer)), newId, ending),
         lost := if ok then s.lost else s.lost + {m.event})
    case Stop => s.(stopping := true)
    case Crash =>
      s.(relay := Idle, queue := [], inFlight := map[], stopping := false,
         lost := s.lost + Events(s.queue) + InFlightEvents(s))
  }

  ghost function Exec(s: State, run: seq<Action>): State {
    if run == [] then s else Do(Exec(s, run[..|run| - 1]), run[|run| - 1])
  }

  lemma ExecSnoc(s: State, run: seq<Action>, a: Action)
    ensures Exec(s, run + [a]) == Do(Exec(s, run), a)
  {
    assert (run + [a])[..|run|] == run;
  }

  lemma ExecNothing(s: State)
    ensures Exec(s, []) == s
  {
  }

  lemma {:induction false} ExecAppend(s: State, run: seq<Action>, more: seq<Action>)
    ensures Exec(s, run + more) == Exec(Exec(s, run), more)
  {
    hide *;
    if more == [] {
      assert run + more == run;
      ExecNothing(Exec(s, run));
    } else {
      var front, a := more[..|more| - 1], more[|more| - 1];
      ExecAppend(s, run, front);
      assert run + more == run + front + [a] && more == front + [a];
      ExecSnoc(s, run + front, a);
      ExecSnoc(Exec(s, run), front, a);
    }
  }

  // ---------------------------------------------------------------- what every run keeps

  /** The message of an event has got somewhere: it waits, is being handled, has led to a wallet, or was
      dropped by a crash or a failing handler. */
  ghost predicate Accounted(s: State, event: Id)
    requires event in s.rows
  {
    || event in Events(s.queue)
    || event in InFlightEvents(s)
    || (s.rows[event].customer, CURRENCY) in s.wallets
    || event in s.lost
  }

  /** Registrations and events correspond one to one. */
  ghost predicate OneEventEach(s: State) {
    && (forall u :: u in s.users ==> s.users[u] in s.rows && s.rows[s.users[u]].customer == u)
    && (forall e :: e in s.rows ==> s.rows[e].customer in s.users && s.users[s.rows[e].customer] == e)
  }

  ghost predicate GoodMessage(s: State, m: Message) {
    m.event in s.rows && s.rows[m.event].customer == m.customer
  }

  ghost predicate GoodBus(s: State) {
    && |s.queue| <= QUEUE_SIZE
    && (forall m :: m in s.queue ==> GoodMessage(s, m))
    && (forall w :: w in s.inFlight ==> w < WORKERS && GoodMessage(s, s.inFlight[w]))
  }

  /** What the relay holds is claimed and unmarked: nobody else changes it. */
  ghost predicate GoodRelay(s: State) {
    s.relay.Busy? ==>
      && s.relay.batch != []
      && (forall i :: 0 <= i < |s.relay.batch| ==> s.relay.batch[i] in s.rows && s.rows[s.relay.batch[i]].status.Processing?)
      && (forall i, j :: 0 <= i < j < |s.relay.batch| ==> s.relay.batch[i] != s.relay.batch[j])
      && (s.relay.enqueued ==> Accounted(s, s.relay.batch[0]))
  }

  ghost predicate GoodWallets(s: State) {
    forall k :: k in s.wallets ==> k.0 in s.users && k.1 == CURRENCY && s.wallets[k].customer == k.0
  }

  ghost predicate PublishedAccounted(s: State) {
    forall e :: e in s.rows && s.rows[e].status.Published? ==> Accounted(s, e)
  }

  ghost predicate Invariant(s: State) {
    OneEventEach(s) && GoodBus(s) && GoodRelay(s) && GoodWallets(s) && PublishedAccounted(s)
  }

  /** No step loses track of a message. */
  lemma StaysAccounted(s: State, a: Action, e: Id)
    requires Invariant(s) && e in s.rows && Accounted(s, e)
    ensures e in Do(s, a).rows && Accounted(Do(s, a), e)
  {
    RowsAfter(s, a, e);
    if Possible(s, a) {
      match a {
        case Enqueue =>
          var s' := Do(s, a);
          assert forall m :: m in s.queue ==> m in s'.queue;
        case Take(worker) =>
          TakeKeepsEvents(s, worker);
        case Handle(worker, _, _) =>
          if e in InFlightEvents(s) {
            HandleKeepsEvents(s, a, e);
          }
        case _ =>
      }
    }
  }

  lemma TakeKeepsEvents(s: State, worker: nat)
    requires Possible(s, Take(worker))
    ensures var s' := Do(s, Take(worker)); Events(s.queue) + InFlightEvents(s) <= Events(s'.queue) + InFlightEvents(s')
  {
    var s' := Do(s, Take(worker));
    assert s.queue == [s.queue[0]] + s'.queue;
    forall w | w in s.inFlight
      ensures s.inFlight[w].event in InFlightEvents(s')
    {
      assert s'.inFlight[w] == s.inFlight[w];
    }
    assert s'.inFlight[worker] == s.queue[0];
  }

  lemma HandleKeepsEvents(s: State, a: Action, e: Id)
    requires Invariant(s) && a.Handle? && Possible(s, a)
    requires e in s.rows && e in InFlightEvents(s)
    ensures var s' := Do(s, a);
            e in InFlightEvents(s') || e in s'.lost || (s.rows[e].customer, CURRENCY) in s'.wallets
  {
    var s' := Do(s, a);
    var w :| w in s.inFlight && s.inFlight[w].event == e;
    if w != a.worker {
      assert s'.inFlight[w].event == e;
    }
  }

  /** What a step does to the row of an event: events stay, and keep their customer. */
  lemma RowsAfter(s: State, a: Action, e: Id)
    requires e in s.rows
    ensures e in Do(s, a).rows && Do(s, a).rows[e].customer == s.rows[e].customer
  {
    if (a.Claim? || a.ClaimUnreported?) && Possible(s, a) {
      WithClaimsAt(s.rows, a.ids, a.now, e);
    }
  }

  lemma KeysAfter(s: State, a: Action)
    requires !a.Register?
    ensures Do(s, a).rows.Keys == s.rows.Keys && Do(s, a).users == s.users
  {
    if (a.Claim? || a.ClaimUnreported?) && Possible(s, a) {
      WithClaimsAt(s.rows, a.ids, a.now, 0);
    }
  }

  lemma KeepsEvents(s: State, a: Action)
    requires Invariant(s)
    ensures OneEventEach(Do(s, a))
  {
    if !a.Register? {
      hide Do;
      var s' := Do(s, a);
      KeysAfter(s, a);
      forall e | e in s.rows
        ensures s'.rows[e].customer == s.rows[e].customer
      {
        RowsAfter(s, a, e);
      }
    }
  }

  lemma KeepsBus(s: State, a: Action)
    requires Invariant(s)
    ensures GoodBus(Do(s, a))
  {
    var s' := Do(s, a);
    forall m: Message | GoodMessage(s, m)
      ensures GoodMessage(s', m)
    {
      RowsAfter(s, a, m.event);
    }
    if a.Take? && Possible(s, a) {
      assert GoodMessage(s, s.queue[0]);
      assert forall m :: m in s'.queue ==> m in s.queue;
    }
  }

  lemma ClaimKeepsRelay(s: State, a: Action)
    requires Invariant(s) && a.Claim? && Possible(s, a)
    ensures GoodRelay(Do(s, a))
  {
    var s' := Do(s, a);
    forall i | 0 <= i < |a.ids|
      ensures a.ids[i] in s'.rows && s'.rows[a.ids[i]].status.Processing?
    {
      WithClaimsAt(s.rows, a.ids, a.now, a.ids[i]);
    }
  }

  lemma KeepsRelay(s: State, a: Action)
    requires Invariant(s)
    ensures GoodRelay(Do(s, a))
  {
    var s' := Do(s, a);
    if a.Claim? && Possible(s, a) {
      ClaimKeepsRelay(s, a);
    } else if a.Enqueue? && Possible(s, a) {
      assert s'.queue[|s.queue|].event in Events(s'.queue);
    } else if s.relay.Busy? && s.relay.enqueued {
      StaysAccounted(s, a, s.relay.batch[0]);
    }
  }

  lemma KeepsWallets(s: State, a: Action)
    requires Invariant(s)
    ensures GoodWallets(Do(s, a))
  {
  }

  lemma KeepsPublished(s: State, a: Action)
    requires Invariant(s)
    ensures PublishedAccounted(Do(s, a))
  {
    var s' := Do(s, a);
    forall e | e in s'.rows && s'.rows[e].status.Published?
      ensures Accounted(s', e)
    {
      if (a.Claim? || a.ClaimUnreported?) && Possible(s, a) {
        WithClaimsAt(s.rows, a.ids, a.now, e);
      }
      StaysAccounted(s, a, e);
    }
  }

  lemma DoKeeps(s: State, a: Action)
    requires Invariant(s)
    ensures Invariant(Do(s, a))
  {
    hide Do;
    KeepsEvents(s, a);
    KeepsBus(s, a);
    KeepsRelay(s, a);
    KeepsWallets(s, a);
    KeepsPublished(s, a);
  }

  lemma {:induction false} EveryRun(run: seq<Action>)
    ensures Invariant(Exec(START, run))
  {
    if run != [] {
      hide Do, Invariant;
      EveryRun(run[..|run| - 1]);
      DoKeeps(Exec(START, run[..|run| - 1]), run[|run| - 1]);
    } else {
      assert Exec(START, run) == START;
    }
  }

  // ---------------------------------------------------------------- what every run delivers

  /** In numbers: the queue holds at most 1000 messages and at most four workers have one in hand. */
  lemma EveryRunInNumbers(run: seq<Action>)
    ensures var s := Exec(START, run);
            |s.queue| <= 1000 && forall w :: w in s.inFlight ==> w < 4
  {
    hide Exec;
    EveryRun(run);
  }

  /** No crash and no handler that reports an error. */
  predicate Clean(run: seq<Action>) {
    forall i :: 0 <= i < |run| ==> !run[i].Crash? && (run[i].Handle? ==> run[i].ending.Completed?)
  }

  lemma StepLosesNothing(s: State, a: Action)
    requires Invariant(s) && !a.Crash? && (a.Handle? ==> a.ending.Completed?)
    ensures Do(s, a).lost == s.lost
  {
  }

  lemma {:induction false} CleanLosesNothing(run: seq<Action>)
    requires Clean(run)
    ensures Exec(START, run).lost == {}
  {
    if run != [] {
      hide Do, Invariant;
      var front := run[..|run| - 1];
      CleanLosesNothing(front);
      EveryRun(front);
      StepLosesNothing(Exec(START, front), run[|run| - 1]);
    }
  }

  ghost predicate Settled(s: State) {
    && s.queue == [] && s.inFlight == map[]
    && forall e :: e in s.rows ==> s.rows[e].status.Published?
  }

  /** Whatever crashes, lost marks, refusals and interleavings a run contains: nobody has a wallet who is
      not registered or a second one, and once every event is published and the bus is empty and idle, a
      registered customer without a wallet is one whose event was dropped by a crash or a failing
      handler.  Without those, the wallets are exactly one NGN wallet per registered customer. */
  lemma EndToEnd(run: seq<Action>)
    ensures var s := Exec(START, run);
            && (forall k :: k in s.wallets ==> k.0 in s.users && k.1 == "NGN" && s.wallets[k].customer == k.0)
            && (Settled(s) ==> forall u :: u in s.users && (u, "NGN") !in s.wallets ==> s.users[u] in s.lost)
            && (Settled(s) && Clean(run) ==> s.wallets.Keys == set u | u in s.users :: (u, "NGN"))
  {
    hide Exec;
    var s := Exec(START, run);
    EveryRun(run);
    forall k | k in s.wallets
      ensures k in Owed(s.users.Keys)
    {
      assert k == (k.0, CURRENCY);
    }
    if Settled(s) {
      forall u | u in s.users && (u, CURRENCY) !in s.wallets
        ensures s.users[u] in s.lost
      {
        assert Accounted(s, s.users[u]);
      }
      if Clean(run) {
        CleanLosesNothing(run);
        assert s.wallets.Keys == Owed(s.users.Keys);
        assert Owed(s.users.Keys) == set u | u in s.users :: (u, "NGN");
      }
    }
  }

  lemma StepKeepsTerminal(s: State, a: Action, e: Id)
    requires Invariant(s) && e in s.rows && Terminal(s.rows[e])
    ensures e in Do(s, a).rows && Do(s, a).rows[e] == s.rows[e]
  {
    if (a.Claim? || a.ClaimUnreported?) && Possible(s, a) {
      WithClaimsAt(s.rows, a.ids, a.now, e);
    }
  }

  /** With the one relay a process starts, published and failed are final: no step of any run touches the
      row of such an event. */
  lemma TerminalIsFinal(run: seq<Action>, a: Action, e: Id)
    ensures var s := Exec(START, run);
            e in s.rows && Terminal(s.rows[e]) ==> e in Do(s, a).rows && Do(s, a).rows[e] == s.rows[e]
  {
    hide *;
    var s := Exec(START, run);
    EveryRun(run);
    if e in s.rows && Terminal(s.rows[e]) {
      StepKeepsTerminal(s, a, e);
    }
  }

  // ---------------------------------------------------------------- the same table as in Relays

  /** The statement on the outbox table a step amounts to, if any. */
  ghost function TableAction(s: State, a: Action): seq<Relays.Action> {
    if !Possible(s, a) then [] else
    match a
    case Register(customer, event, now) => [Relays.Insert(event, customer, now)]
    case Claim(ids, now) => [Relays.Claim(ids, BATCH, {}, now)]
    case ClaimUnreported(ids, now) => [Relays.Claim(ids, BATCH, {}, now)]
    case EnqueueRefused(effect, now, message) => if effect then [Relays.Fail(s.relay.batch[0], now, message)] else []
    case Mark(effect, now) => if effect then [Relays.Publish(s.relay.batch[0], now)] else []
    case _ => []
  }

  ghost function TableRun(run: seq<Action>): seq<Relays.Action> {
    if run == [] then []
    else TableRun(run[..|run| - 1]) + TableAction(Exec(START, run[..|run| - 1]), run[|run| - 1])
  }

  lemma StepRefines(s: State, a: Action, sys: Relays.System)
    requires sys.rows == s.rows
    ensures TableAction(s, a) == [] ==> Do(s, a).rows == s.rows
    ensures TableAction(s, a) != [] ==> |TableAction(s, a)| == 1 && Relays.Do(sys, TableAction(s, a)[0]).rows == Do(s, a).rows
  {
  }

  /** Every run of the process is, seen from the outbox table, a run of the relay system: what holds of
      the table under any number of relays holds here. */
  lemma {:induction false} RunRefines(run: seq<Action>)
    ensures Relays.Exec(Relays.EMPTY, TableRun(run)).rows == Exec(START, run).rows
  {
    if run != [] {
      hide Do, Relays.Do, TableAction;
      var front, a := run[..|run| - 1], run[|run| - 1];
      RunRefines(front);
      var s, sys := Exec(START, front), Relays.Exec(Relays.EMPTY, TableRun(front));
      StepRefines(s, a, sys);
      var t := TableAction(s, a);
      if t == [] {
        assert TableRun(front) + t == TableRun(front);
      } else {
        assert t == [t[0]];
        Relays.ExecSnoc(Relays.EMPTY, TableRun(front), t[0]);
      }
    }
  }

  /** Nothing a process goes through makes an unfinished event unclaimable for more than five minutes. */
  lemma NeverStuck(run: seq<Action>, e: Id, now: int)
    ensures var s := Exec(START, run);
            e in s.rows && !Terminal(s.rows[e]) && now > s.rows[e].updatedAt + 300 * SECOND ==> Eligible(s.rows[e], now)
  {
    hide Exec, Relays.Exec;
    RunRefines(run);
    Relays.AlwaysClaimable(TableRun(run), e, now);
  }
}
