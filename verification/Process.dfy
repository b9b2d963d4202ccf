/** The objects of one process: the bus, the relay's loop over a claimed batch and the consumers
  (internal/events/bus.go, internal/service/outbox_service.go, internal/repository/user_repository.go),
  each operation proved to be steps of the system in Delivery. */
module Processes {
  import opened Options
  import opened Outbox
  import opened Wallets
  import opened Delivery

  /** How a Publish ends; Blocked means that it goes on waiting. */
  datatype PublishResult = Sent | ContextDone | Blocked

  /** The functions subscribed by the program. */
  datatype Handler = WalletConsumer

  /** The type of every event the outbox gets, and so of every message. */
  const WALLET_REQUESTED := "wallet.creation_requested"

  class Bus {
    var queue: seq<Message>
    var handlers: map<string, seq<Handler>>
    const size: nat

    constructor (bufferSize: int)
      ensures queue == [] && handlers == map[] && size >= 1 && size == if bufferSize < 1 then 1000 else bufferSize
    {
      queue, handlers := [], map[];
      size := if bufferSize < 1 then 1000 else bufferSize;
    }

    function HandlersOf(eventType: string): seq<Handler>
      reads this
    {
      if eventType in handlers then handlers[eventType] else []
    }

    method Subscribe(eventType: string, handler: Handler)
      modifies this`handlers
      ensures HandlersOf(eventType) == old(HandlersOf(eventType)) + [handler]
      ensures forall other :: other != eventType ==> HandlersOf(other) == old(HandlersOf(other))
    {
      handlers := handlers[eventType := HandlersOf(eventType) + [handler]];
    }

    /** The select of Publish: room in the queue against a context that is done; with both, either. */
    method Publish(m: Message, done: bool, preferDone: bool) returns (r: PublishResult)
      modifies this`queue
      ensures r.Sent? ==> old(|queue|) < size && queue == old(queue) + [m]
      ensures !r.Sent? ==> queue == old(queue)
      ensures r.ContextDone? ==> done
      ensures r.Blocked? <==> !done && old(|queue|) >= size
    {
      if |queue| < size && !(done && preferDone) {
        queue := queue + [m];
        return Sent;
      }
      return if done then ContextDone else Blocked;
    }

    method Receive() returns (m: Message)
      requires queue != []
      modifies this`queue
      ensures [m] + queue == old(queue)
    {
      m := queue[0];
      queue := queue[1..];
    }
  }

  /** What the rest of the process may do while the relay works on a batch. */
  predicate Environment(a: Action) {
    a.Register? || a.Take? || a.Handle? || a.Stop?
  }

  predicate Around(others: seq<Action>) {
    forall i :: 0 <= i < |others| ==> Environment(others[i])
  }

  /** One attempt at an item: what others do before it and between queueing and marking, how the select
      falls when it may go either way, and whether and when the mark takes effect. */
  datatype Turn = Turn(before: seq<Action>, between: seq<Action>, preferDone: bool, effect: bool, now: int, message: string)

  /** How a claim ends. */
  datatype ClaimEnding = Reported | Unreported | NotCommitted

  /** The relay's own steps in a run. */
  function RelaySteps(run: seq<Action>): seq<Action> {
    if run == [] then [] else
    RelaySteps(run[..|run| - 1]) + if Environment(run[|run| - 1]) then [] else [run[|run| - 1]]
  }

  lemma {:induction false} RelayStepsAppend(run: seq<Action>, more: seq<Action>)
    ensures RelaySteps(run + more) == RelaySteps(run) + RelaySteps(more)
  {
    if more == [] {
      assert run + more == run;
    } else {
      RelayStepsAppend(run, more[..|more| - 1]);
      assert (run + more)[..|run + more| - 1] == run + more[..|more| - 1];
    }
  }

  lemma {:induction false} AroundHasNoRelaySteps(others: seq<Action>)
    requires Around(others)
    ensures RelaySteps(others) == []
  {
    if others != [] {
      AroundHasNoRelaySteps(others[..|others| - 1]);
    }
  }

  lemma ExecOne(s: State, a: Action)
    ensures Exec(s, [a]) == Do(s, a)
  {
    assert [a][..0] == [];
  }

  /** The rest of the process leaves the relay and its events' customers alone. */
  lemma {:induction false} AroundLeavesRelay(s: State, others: seq<Action>)
    requires Around(others)
    ensures var s' := Exec(s, others);
            && s'.relay == s.relay
            && forall e :: e in s.rows ==> e in s'.rows && s'.rows[e].customer == s.rows[e].customer
  {
    if others != [] {
      AroundLeavesRelay(s, others[..|others| - 1]);
    }
  }

  /** The steps deal with `n` items one after the other: each is queued and marked, or refused and marked. */
  predicate DealsWith(steps: seq<Action>, n: nat)
    decreases n
  {
    if n == 0 then steps == []
    else
      || (|steps| >= 1 && steps[|steps| - 1].EnqueueRefused? && DealsWith(steps[..|steps| - 1], n - 1))
      || (|steps| >= 2 && steps[|steps| - 2].Enqueue? && steps[|steps| - 1].Mark? && DealsWith(steps[..|steps| - 2], n - 1))
  }

  lemma OneItem(steps: seq<Action>, last: Action)
    requires (steps == [] && last.EnqueueRefused?) || (steps == [Enqueue] && last.Mark?)
    ensures DealsWith(steps + [last], 1)
  {
  }

  lemma DealsWithOneMore(steps: seq<Action>, n: nat, more: seq<Action>)
    requires DealsWith(steps, n) && DealsWith(more, 1)
    ensures DealsWith(steps + more, n + 1)
  {
    assert (steps + more)[..|steps|] == steps;
  }

  class Process {
    const outbox: OutboxRepository
    const bus: Bus
    const repository: WalletRepository
    var users: map<Id, Id>
    var inFlight: map<nat, Message>
    var stopping: bool
    ghost var relay: Relay
    ghost var lost: set<Id>

    ghost function State(): Delivery.State
      reads this, outbox, bus, repository
    {
      Delivery.State(users, outbox.rows, relay, bus.queue, inFlight, repository.wallets, stopping, lost)
    }

    /** The bus is the one the router makes: its size, and the wallet consumer as the one handler. */
    ghost predicate Valid()
      reads this, bus
    {
      bus.size == QUEUE_SIZE && bus.HandlersOf(WALLET_REQUESTED) == [WalletConsumer]
    }

    constructor ()
      ensures Valid() && State() == START && fresh(outbox) && fresh(bus) && fresh(repository)
      ensures bus.size == 1000 && bus.HandlersOf("wallet.creation_requested") == [WalletConsumer]
    {
      outbox := new OutboxRepository();
      var b := new Bus(QUEUE_SIZE);
      b.Subscribe(WALLET_REQUESTED, WalletConsumer);
      bus := b;
      repository := new WalletRepository();
      users, inFlight, stopping := map[], map[], false;
      relay, lost := Idle, {};
    }

    /** The user and the event are inserted in one transaction: when it breaks after the first insert, or
        the second is refused, the first is rolled back. */
    method CreateWithOutbox(customer: Id, event: Id, now: int, breaks: bool) returns (ok: bool)
      modifies this, outbox
      ensures State() == if breaks then old(State()) else Do(old(State()), Register(customer, event, now))
      ensures ok <==> !breaks && old(customer !in users && event !in outbox.rows)
    {
      if customer in users {
        return false;
      }
      var before := users;
      users := users[customer := event];
      if breaks || event in outbox.rows {
        users := before;
        return false;
      }
      outbox.Create(event, customer, now);
      return true;
    }

    /** A worker takes the oldest message. */
    method TakeMessage(worker: nat)
      modifies this, bus`queue
      ensures State() == Do(old(State()), Take(worker))
      ensures if worker < 4 && worker !in old(inFlight) && old(bus.queue) != []
              then inFlight == old(inFlight)[worker := old(bus.queue[0])] && bus.queue == old(bus.queue[1..])
              else inFlight == old(inFlight) && bus.queue == old(bus.queue)
    {
      if worker < WORKERS && worker !in inFlight && bus.queue != [] {
        var m := bus.Receive();
        inFlight := inFlight[worker := m];
      }
    }

    /** A worker calls every handler of its message's type, taken from the map once, with the message it
        has; an error is logged and the message dropped. */
    method Dispatch(worker: nat, ending: Ending, newId: Id)
      requires Valid()
      modifies this, repository
      ensures State() == Do(old(State()), Handle(worker, ending, newId))
    {
      if worker in inFlight {
        var m := inFlight[worker];
        var handlers := bus.HandlersOf(WALLET_REQUESTED);
        for i := 0 to |handlers|
          invariant unchanged(this)
          invariant repository.wallets
                 == if i == 0 then old(repository.wallets)
                    else AfterCall(old(repository.wallets), users.Keys, WalletRequest(Some(m.customer)), newId, ending)
        {
          match handlers[i] {
            case WalletConsumer =>
              var _ := repository.Handle(users.Keys, WalletRequest(Some(m.customer)), newId, ending);
          }
        }
        inFlight := inFlight - {worker};
        lost := if ending.Completed? && m.customer in users then lost else lost + {m.event};
      }
    }

    method Act(a: Action)
      requires Valid() && Environment(a)
      modifies this, outbox, bus`queue, repository
      ensures State() == Do(old(State()), a)
    {
      match a {
        case Register(customer, event, now) => var _ := CreateWithOutbox(customer, event, now, false);
        case Take(worker) => TakeMessage(worker);
        case Handle(worker, ending, newId) => Dispatch(worker, ending, newId);
        case Stop => stopping := true;
        case _ => assert false;
      }
    }

    method Others(others: seq<Action>)
      requires Valid() && Around(others)
      modifies this, outbox, bus`queue, repository
      ensures State() == Exec(old(State()), others)
      ensures relay == old(relay) && KeepsCustomers(old(outbox.rows), outbox.rows) && RelaySteps(others) == []
    {
      ghost var before := State();
      AroundLeavesRelay(before, others);
      AroundHasNoRelaySteps(others);
      for i := 0 to |others|
        invariant State() == Exec(before, others[..i])
      {
        hide Do;
        Act(others[i]);
        assert others[..i + 1][..i] == others[..i];
      }
      assert others[..|others|] == others;
    }
  
    /** The relay is at the given item of its batch. */
    ghost predicate At(item: (Id, Row), enqueued: bool)
      reads this, outbox
    {
      && relay.Busy? && relay.batch != [] && relay.enqueued == enqueued && relay.batch[0] == item.0
      && item.0 in outbox.rows && outbox.rows[item.0].customer == item.1.customer
    }

    method Publish(item: (Id, Row), turn: Turn) returns (r: PublishResult, ghost run: seq<Action>)
      requires Valid() && Around(turn.before) && At(item, false)
      modifies this, outbox, bus`queue, repository
      ensures State() == Exec(old(State()), run) && KeepsCustomers(old(outbox.rows), outbox.rows)
      ensures RelaySteps(run) == if r.Sent? then [Enqueue] else []
      ensures At(item, r.Sent?) && relay.batch == old(relay.batch)
      ensures r.ContextDone? ==> stopping
      ensures r.Blocked? ==> !stopping && |bus.queue| >= QUEUE_SIZE
    {
      hide Do;
      ghost var before := State();
      Others(turn.before);
      run := turn.before;
      ghost var s := State();
      r := bus.Publish(Message(item.0, item.1.customer), stopping, turn.preferDone);
      if r.Sent? {
        relay := relay.(enqueued := true);
        EnqueueIs(s);
        Extend(before, run, Enqueue);
        run := run + [Enqueue];
      }
    }

    method Refuse(item: (Id, Row), turn: Turn) returns (ghost step: Action)
      requires stopping && At(item, false)
      modifies this, outbox
      ensures State() == Do(old(State()), step) && step.EnqueueRefused?
      ensures relay == Advance(old(relay.batch)) && KeepsCustomers(old(outbox.rows), outbox.rows)
    {
      if turn.effect {
        outbox.MarkFailed(item.0, turn.now, turn.message);
      }
      step := EnqueueRefused(turn.effect, turn.now, turn.message);
      relay := Advance(relay.batch);
    }

    method MarkSent(item: (Id, Row), turn: Turn) returns (ghost step: Action)
      requires At(item, true)
      modifies this, outbox
      ensures State() == Do(old(State()), step) && step.Mark?
      ensures relay == Advance(old(relay.batch)) && KeepsCustomers(old(outbox.rows), outbox.rows)
    {
      if turn.effect {
        outbox.MarkPublished(item.0, turn.now);
      }
      step := Action.Mark(turn.effect, turn.now);
      relay := Advance(relay.batch);
    }

    /** Publishes one item of the batch and marks it; false means that the queue was full and Publish goes
        on waiting. */
    method PublishItem(item: (Id, Row), turn: Turn) returns (settled: bool, ghost run: seq<Action>)
      requires Valid() && Around(turn.before) && Around(turn.between) && At(item, false)
      modifies this, outbox, bus`queue, repository
      ensures State() == Exec(old(State()), run) && KeepsCustomers(old(outbox.rows), outbox.rows)
      ensures settled ==> relay == Advance(old(relay.batch)) && DealsWith(RelaySteps(run), 1)
      ensures !settled ==> relay == old(relay) && RelaySteps(run) == [] && !stopping && |bus.queue| >= QUEUE_SIZE
    {
      hide Do, Exec, RelaySteps, DealsWith, Around, Advance;
      ghost var before := State();
      var r;
      r, run := Publish(item, turn);
      if r.Blocked? {
        return false, run;
      }
      settled := true;
      ghost var step;
      if r.Sent? {
        Others(turn.between);
        ExecAppend(before, run, turn.between);
        RelayStepsAppend(run, turn.between);
        run := run + turn.between;
        assert RelaySteps(run) == [Enqueue];
        step := MarkSent(item, turn);
      } else {
        step := Refuse(item, turn);
      }
      assert DealsWith(RelaySteps(run) + [step], 1) by { OneItem(RelaySteps(run), step); }
      Extend(before, run, step);
      run := run + [step];
    }

    /** The batch still to be dealt with is the claimed items from the given one on. */
    ghost predicate Holds(items: seq<(Id, Row)>, done: nat)
      requires done <= |items|
      reads this, outbox
    {
      && relay == Remaining(items[done..])
      && forall k :: done <= k < |items| ==>
           items[k].0 in outbox.rows && outbox.rows[items[k].0].customer == items[k].1.customer
    }

    /** The loop over the items of a batch.  Every turn deals with an item or finds the queue full, after
        the number of steps noted in `waits`; only that keeps the relay from its next item. */
    method PublishItems(items: seq<(Id, Row)>, turns: seq<Turn>)
      returns (done: nat, ghost run: seq<Action>, ghost waits: seq<nat>)
      requires Valid() && Holds(items, 0)
      requires forall t :: t in turns ==> Around(t.before) && Around(t.between)
      modifies this, outbox, bus`queue, repository
      ensures State() == Exec(old(State()), run)
      ensures done <= |items| && DealsWith(RelaySteps(run), done) && relay == Remaining(items[done..])
      ensures done < |items| ==> done + |waits| == |turns|
      ensures AllFull(old(State()), run, waits)
    {
      hide Do, Exec, DealsWith, RelaySteps, AllFull, Around;
      ghost var before := State();
      done, run, waits := 0, [], [];
      NothingYet(before);
      var t := 0;
      while done < |items| && t < |turns|
        invariant done <= |items| && t <= |turns| && State() == Exec(before, run)
        invariant Holds(items, done)
        invariant DealsWith(RelaySteps(run), done)
        invariant done + |waits| == t && AllFull(before, run, waits)
      {
        ghost var next;
        var settled;
        settled, next := PublishItem(items[done], turns[t]);
        ExecAppend(before, run, next);
        RelayStepsAppend(run, next);
        AllFullLater(before, run, next, waits);
        if settled {
          DealsWithOneMore(RelaySteps(run), done, RelaySteps(next));
          done := done + 1;
        } else {
          assert RelaySteps(run) + RelaySteps(next) == RelaySteps(run);
          AllFullNow(before, run + next, waits);
          waits := waits + [|run + next|];
        }
        run := run + next;
        t := t + 1;
      }
    }

    /** One tick of the relay: claims a batch and publishes and marks its items in order, while the rest of
        the process goes on. */
    method PublishBatch(ending: ClaimEnding, now: int, turns: seq<Turn>)
      returns (done: nat, ghost ids: seq<Id>, ghost claim: seq<Action>, ghost run: seq<Action>, ghost waits: seq<nat>)
      requires Valid() && relay.Idle?
      requires forall t :: t in turns ==> Around(t.before) && Around(t.between)
      modifies this, outbox, bus`queue, repository
      ensures State() == Exec(old(State()), claim + run)
      ensures IsSelection(old(outbox.rows), now, 100, {}, ids)
      ensures claim == match ending
                       case Reported => [Claim(ids, now)]
                       case Unreported => [ClaimUnreported(ids, now)]
                       case NotCommitted => []
      ensures !ending.Reported? ==> run == []
      ensures ending.Reported? ==>
                && done <= |ids| && DealsWith(RelaySteps(run), done)
                && relay == (if done == |ids| then Idle else Busy(ids[done..], false))
                && (done < |ids| ==> done + |waits| == |turns|)
                && AllFull(Exec(old(State()), claim), run, waits)
    {
      hide Do, Exec, DealsWith, Remaining, RelaySteps, AllFull, Around;
      ghost var before := State();
      done, claim, run, waits := 0, [], [], [];
      var events;
      events, ids := outbox.ClaimBatch(BATCH, now, {}, !ending.NotCommitted?);
      ClaimIs(before, ids, now);
      if ending.NotCommitted? {
        assert claim + run == [];
        ExecNothing(before);
        return;
      }
      claim := [if ending.Reported? then Claim(ids, now) else ClaimUnreported(ids, now)];
      ExecOne(before, claim[0]);
      if ending.Unreported? {
        assert claim + run == claim;
        return;
      }
      relay := if ids == [] then Idle else Busy(ids, false);
      RemainingIs(events.value, ids);
      assert events.value[0..] == events.value;
      done, run, waits := PublishItems(events.value, turns);
      RemainingIs(events.value[done..], ids[done..]);
      ExecAppend(before, claim, run);
    }
  }

  /** The relay with these items left. */
  function Remaining(items: seq<(Id, Row)>): Relay {
    if items == [] then Idle else Busy(Ids(items), false)
  }

  function Ids(items: seq<(Id, Row)>): seq<Id> {
    seq(|items|, i requires 0 <= i < |items| => items[i].0)
  }

  lemma RemainingIs(items: seq<(Id, Row)>, ids: seq<Id>)
    requires |items| == |ids| && forall i :: 0 <= i < |ids| ==> items[i].0 == ids[i]
    ensures Remaining(items) == if ids == [] then Idle else Busy(ids, false)
  {
    assert Ids(items) == ids;
  }

  lemma NothingYet(s: State)
    ensures Exec(s, []) == s && DealsWith(RelaySteps([]), 0) && AllFull(s, [], [])
  {
  }

  lemma AllFullNow(s: State, run: seq<Action>, waits: seq<nat>)
    requires AllFull(s, run, waits) && |Exec(s, run).queue| >= QUEUE_SIZE && !Exec(s, run).stopping
    ensures AllFull(s, run, waits + [|run|])
  {
    hide Exec;
    assert run[..|run|] == run;
  }

  lemma ClaimIs(s: State, ids: seq<Id>, now: int)
    requires s.relay.Idle? && IsSelection(s.rows, now, BATCH, {}, ids)
    ensures Do(s, ClaimUnreported(ids, now)) == s.(rows := WithClaims(s.rows, ids, now))
    ensures Do(s, Claim(ids, now)) == s.(rows := WithClaims(s.rows, ids, now), relay := if ids == [] then Idle else Busy(ids, false))
    ensures KeepsCustomers(s.rows, WithClaims(s.rows, ids, now))
    ensures forall k :: 0 <= k < |ids| ==> ids[k] in WithClaims(s.rows, ids, now)
  {
    forall e | e in s.rows
      ensures e in WithClaims(s.rows, ids, now) && WithClaims(s.rows, ids, now)[e].customer == s.rows[e].customer
    {
      WithClaimsAt(s.rows, ids, now, e);
    }
  }

  /** After each of these numbers of steps the queue is full and the context not done. */
  ghost predicate AllFull(s: State, run: seq<Action>, waits: seq<nat>) {
    forall i :: 0 <= i < |waits| ==>
      waits[i] <= |run| && |Exec(s, run[..waits[i]]).queue| >= QUEUE_SIZE && !Exec(s, run[..waits[i]]).stopping
  }

  lemma AllFullLater(s: State, run: seq<Action>, more: seq<Action>, waits: seq<nat>)
    requires AllFull(s, run, waits)
    ensures AllFull(s, run + more, waits)
  {
    hide Exec;
    forall i | 0 <= i < |waits|
      ensures (run + more)[..waits[i]] == run[..waits[i]]
    {
    }
  }

  ghost predicate KeepsCustomers(before: Table, after: Table) {
    forall e :: e in before ==> e in after && after[e].customer == before[e].customer
  }

  lemma Extend(s: State, run: seq<Action>, a: Action)
    requires !Environment(a)
    ensures Exec(s, run + [a]) == Do(Exec(s, run), a)
    ensures RelaySteps(run + [a]) == RelaySteps(run) + [a]
  {
    assert (run + [a])[..|run|] == run;
  }

  lemma EnqueueIs(s: State)
    requires s.relay.Busy? && s.relay.batch != [] && s.relay.batch[0] in s.rows && !s.relay.enqueued && |s.queue| < QUEUE_SIZE
    ensures Do(s, Enqueue) == s.(queue := s.queue + [Message(s.relay.batch[0], s.rows[s.relay.batch[0]].customer)],
                                 relay := Busy(s.relay.batch, true))
  {
  }
}
