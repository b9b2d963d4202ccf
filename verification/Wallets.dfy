/** Wallet creation (internal/repository/wallet_repository.go, internal/service/wallet_service.go,
  internal/consumer/wallet_consumer.go): what one delivery of a wallet request does, and what any
  number of deliveries in any order amount to. */
module Wallets {
  import opened Options
  import opened Outbox

  /** A wallet row; `id` is drawn by the database. */
  datatype Wallet = Wallet(id: Id, customer: Id, currency: string, balance: int, status: string)

  /** The table, keyed by its unique constraint. */
  type Store = map<(Id, string), Wallet>

  const CURRENCY := "NGN"

  datatype WalletError = UnknownCustomer | WalletNotFound | CustomerRequired | DecodeFailed | DatabaseFailed

  datatype Outcome<T> = Done(value: T) | Refused(error: WalletError)

  /** A message payload: unreadable, or a request naming a customer (None for the empty string). */
  datatype Payload = Garbled | WalletRequest(customer: Option<Id>)

  /** How the database call of a handler ends: well, or with an error reported before or after the wallet
      was written. */
  datatype Ending = Completed | FailedBefore | FailedAfter

  // ---------------------------------------------------------------- one delivery

  /** The table after INSERT ... ON CONFLICT DO NOTHING; the foreign key refuses unknown customers. */
  function WithWallet(store: Store, users: set<Id>, customer: Id, newId: Id): Store {
    if (customer, CURRENCY) in store || customer !in users then store
    else store[(customer, CURRENCY) := Wallet(newId, customer, CURRENCY, 0, "active")]
  }

  function Delivered(store: Store, users: set<Id>, payload: Payload, newId: Id): Store {
    if payload.WalletRequest? && payload.customer.Some?
    then WithWallet(store, users, payload.customer.value, newId) else store
  }

  /** The table after the handler's call has ended. */
  function AfterCall(store: Store, users: set<Id>, payload: Payload, newId: Id, ending: Ending): Store {
    if ending.FailedBefore? then store else Delivered(store, users, payload, newId)
  }

  function Lookup(store: Store, customer: Id, currency: string): Outcome<Wallet> {
    if (customer, currency) in store then Done(store[(customer, currency)]) else Refused(WalletNotFound)
  }

  class WalletRepository {
    var wallets: Store

    constructor ()
      ensures wallets == map[]
    {
      wallets := map[];
    }

    method GetByCustomerId(customer: Id, currency: string) returns (r: Outcome<Wallet>)
      ensures r == Lookup(wallets, customer, currency)
    {
      if (customer, currency) in wallets {
        return Done(wallets[(customer, currency)]);
      }
      return Refused(WalletNotFound);
    }

    /** Inserts, or falls back to reading the row that stands in the way. */
    method Create(users: set<Id>, customer: Id, newId: Id, ending: Ending) returns (r: Outcome<Wallet>)
      modifies this
      ensures wallets == AfterCall(old(wallets), users, WalletRequest(Some(customer)), newId, ending)
      ensures !ending.Completed? ==> r == Refused(DatabaseFailed)
      ensures ending.Completed? ==>
                r == if (customer, CURRENCY) in wallets then Done(wallets[(customer, CURRENCY)]) else Refused(UnknownCustomer)
      ensures !ending.FailedBefore? && customer in users && (customer, "NGN") !in old(wallets) ==>
                wallets == old(wallets)[(customer, "NGN") := Wallet(newId, customer, "NGN", 0, "active")]
      ensures ending.FailedBefore? || customer !in users || (customer, "NGN") in old(wallets) ==> wallets == old(wallets)
    {
      if ending.FailedBefore? {
        return Refused(DatabaseFailed);
      }
      if (customer, CURRENCY) in wallets {
        r := GetByCustomerId(customer, CURRENCY);
      } else if customer !in users {
        r := Refused(UnknownCustomer);
      } else {
        var w := Wallet(newId, customer, CURRENCY, 0, "active");
        wallets := wallets[(customer, CURRENCY) := w];
        r := Done(w);
      }
      if ending.FailedAfter? {
        r := Refused(DatabaseFailed);
      }
    }

    method CreateForCustomer(users: set<Id>, customer: Option<Id>, newId: Id, ending: Ending) returns (r: Outcome<Wallet>)
      modifies this
      ensures wallets == AfterCall(old(wallets), users, WalletRequest(customer), newId, ending)
      ensures customer.None? ==> r == Refused(CustomerRequired)
      ensures customer.Some? && !ending.Completed? ==> r == Refused(DatabaseFailed)
      ensures customer.Some? && ending.Completed? ==>
                r == if (customer.value, CURRENCY) in wallets then Done(wallets[(customer.value, CURRENCY)])
                     else Refused(UnknownCustomer)
    {
      if customer.None? {
        return Refused(CustomerRequired);
      }
      r := Create(users, customer.value, newId, ending);
    }

    /** The event handler: it succeeds exactly when its call did and the customer has a wallet afterwards. */
    method Handle(users: set<Id>, payload: Payload, newId: Id, ending: Ending) returns (r: Outcome<()>)
      modifies this
      ensures wallets == AfterCall(old(wallets), users, payload, newId, ending)
      ensures r.Done? <==>
                && ending.Completed? && payload.WalletRequest? && payload.customer.Some?
                && (payload.customer.value, CURRENCY) in wallets
    {
      if payload.Garbled? {
        return Refused(DecodeFailed);
      }
      var w := CreateForCustomer(users, payload.customer, newId, ending);
      return if w.Done? then Done(()) else Refused(w.error);
    }
  }

  // ---------------------------------------------------------------- many deliveries

  /** One delivery of a run: the payload and the id the database would draw for a new row. */
  datatype Delivery = Delivery(payload: Payload, newId: Id)

  function DeliverAll(store: Store, users: set<Id>, run: seq<Delivery>): Store {
    if run == [] then store
    else Delivered(DeliverAll(store, users, run[..|run| - 1]), users, run[|run| - 1].payload, run[|run| - 1].newId)
  }

  /** The known customers some delivery of the run names. */
  function Named(users: set<Id>, run: seq<Delivery>): set<Id> {
    set d | d in run && d.payload.WalletRequest? && d.payload.customer.Some? && d.payload.customer.value in users
      :: d.payload.customer.value
  }

  function Owed(customers: set<Id>): set<(Id, string)> {
    set c | c in customers :: (c, CURRENCY)
  }

  /** The store up to what the database draws for itself. */
  function View(store: Store): map<(Id, string), (int, string)> {
    map k | k in store :: (store[k].balance, store[k].status)
  }

  lemma NamedSnoc(users: set<Id>, front: seq<Delivery>, last: Delivery)
    ensures Named(users, front + [last])
         == Named(users, front)
            + if last.payload.WalletRequest? && last.payload.customer.Some? && last.payload.customer.value in users
              then {last.payload.customer.value} else {}
  {
    var run := front + [last];
    assert forall d :: d in run <==> d in front || d == last;
  }

  /** `after` is `store` with every wallet untouched and one empty NGN wallet added for each of the given
      customers who had none. */
  ghost predicate Adds(store: Store, customers: set<Id>, after: Store) {
    && after.Keys == store.Keys + Owed(customers)
    && (forall k :: k in store ==> k in after && after[k] == store[k])
    && (forall k :: k in after && k !in store ==>
          after[k].customer == k.0 && after[k].currency == k.1 && after[k].balance == 0 && after[k].status == "active")
  }

  lemma AddsOne(store: Store, customers: set<Id>, after: Store, users: set<Id>, c: Id, newId: Id)
    requires Adds(store, customers, after) && c in users
    ensures Adds(store, customers + {c}, WithWallet(after, users, c, newId))
  {
    assert Owed(customers + {c}) == Owed(customers) + {(c, CURRENCY)};
  }

  /** What a run amounts to: it adds a wallet for the known customers it names, and nothing else about it
      matters. */
  lemma {:induction false} DeliverAllIs(store: Store, users: set<Id>, run: seq<Delivery>)
    ensures Adds(store, Named(users, run), DeliverAll(store, users, run))
  {
    if run != [] {
      hide Named, Adds;
      var front, last := run[..|run| - 1], run[|run| - 1];
      DeliverAllIs(store, users, front);
      NamedSnoc(users, front, last);
      assert run == front + [last];
      if last.payload.WalletRequest? && last.payload.customer.Some? && last.payload.customer.value in users {
        AddsOne(store, Named(users, front), DeliverAll(store, users, front), users, last.payload.customer.value, last.newId);
      } else {
        assert Named(users, run) == Named(users, front);
      }
    }
  }

  function WithoutWallet(store: Store, customers: set<Id>): set<Id> {
    set c | c in customers && (c, CURRENCY) !in store
  }

  /** The customers who got a wallet from a run can be read off the store. */
  lemma GotWallets(store: Store, users: set<Id>, run: seq<Delivery>, c: Id)
    ensures c in WithoutWallet(store, Named(users, run))
       <==> (c, CURRENCY) in View(DeliverAll(store, users, run)) && (c, CURRENCY) !in store
  {
    hide DeliverAll, Named;
    DeliverAllIs(store, users, run);
  }

  lemma ViewIs(store: Store, users: set<Id>, run: seq<Delivery>)
    ensures View(DeliverAll(store, users, run))
         == View(store) + map k | k in Owed(WithoutWallet(store, Named(users, run))) :: (0, "active")
  {
    hide DeliverAll, Named;
    DeliverAllIs(store, users, run);
  }

  /** Two runs reach the same store exactly when they name the same customers among those without a
      wallet: order, repetition and who handled what do not matter. */
  lemma OnlyTheSetMatters(store: Store, users: set<Id>, run1: seq<Delivery>, run2: seq<Delivery>)
    ensures View(DeliverAll(store, users, run1)) == View(DeliverAll(store, users, run2))
       <==> WithoutWallet(store, Named(users, run1)) == WithoutWallet(store, Named(users, run2))
  {
    hide *;
    if View(DeliverAll(store, users, run1)) == View(DeliverAll(store, users, run2)) {
      forall c
        ensures c in WithoutWallet(store, Named(users, run1)) <==> c in WithoutWallet(store, Named(users, run2))
      {
        GotWallets(store, users, run1, c);
        GotWallets(store, users, run2, c);
      }
    }
    ViewIs(store, users, run1);
    ViewIs(store, users, run2);
  }

  /** Once a customer has a wallet, every later delivery for that customer returns that very wallet. */
  lemma SameWalletForever(store: Store, users: set<Id>, customer: Id, run: seq<Delivery>, newId: Id)
    requires (customer, CURRENCY) in store
    ensures var later := WithWallet(DeliverAll(store, users, run), users, customer, newId);
            (customer, CURRENCY) in later && later[(customer, CURRENCY)] == store[(customer, CURRENCY)]
  {
    DeliverAllIs(store, users, run);
  }

  /** What a lookup finds after any run: the wallet of exactly the known customers some delivery named, in
      the one currency, empty and active. */
  lemma {:induction false} LookupAfterRun(users: set<Id>, run: seq<Delivery>, customer: Id, currency: string)
    ensures var r := Lookup(DeliverAll(map[], users, run), customer, currency);
            && (r.Done? <==> customer in Named(users, run) && currency == "NGN")
            && (r.Done? ==> r.value == Wallet(r.value.id, customer, currency, 0, "active"))
  {
    hide DeliverAll, Named;
    DeliverAllIs(map[], users, run);
  }
}
