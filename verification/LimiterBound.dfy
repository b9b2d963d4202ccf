/** What the orphans cost (internal/middleware/middleware.go): however requests and sweeps interleave, each
  sweep that deletes a bucket of a client while a request holds it gives the client at most the burst and
  the rate once more.

  The requests of the client are followed by generation: the buckets it has between two orphaning sweeps
  behave together as one bucket that is never deleted, here under a name of its own. */
module LimiterBound {
  import opened RateLimiting
  import opened LimiterThreads

  /** The sweep deletes the client's bucket while a request holds that bucket. */
  predicate OrphansClient(s: Limiter, key: string, tick: real) {
    Idle(s, key, tick) && exists t :: t in s.held && s.held[t] == Hold(key, s.table[key])
  }

  /** How many sweeps of the run do that. */
  function Orphanings(rate: real, run: seq<Step>, key: string): nat {
    if run == [] then 0 else
    var front, a := run[..|run| - 1], run[|run| - 1];
    Orphanings(rate, front, key)
    + if a.Clean? && OrphansClient(LimiterThreads.Exec(rate, front), key, a.tick) then 1 else 0
  }

  function Name(generation: nat): (name: string)
    ensures |name| == generation
  {
    seq(generation, _ => 'g')
  }

  /** The generation each request of the client holds a bucket of, and the requests so far by generation. */
  datatype Trail = Trail(orphaned: nat, generations: map<nat, nat>, requests: seq<Action>)

  function Follow(key: string, s: Limiter, tr: Trail, a: Step): Trail {
    match a
    case Fetch(thread, k, _) =>
      if thread !in s.held && k == key then tr.(generations := tr.generations[thread := tr.orphaned]) else tr
    case Spend(thread, now) =>
      if thread in tr.generations
      then tr.(generations := tr.generations - {thread},
               requests := tr.requests + [Request(Name(tr.generations[thread]), now, now)])
      else tr
    case Clean(tick) => if OrphansClient(s, key, tick) then tr.(orphaned := tr.orphaned + 1) else tr
  }

  function TrailOf(rate: real, run: seq<Step>, key: string): Trail {
    if run == [] then Trail(0, map[], [])
    else
      var front := run[..|run| - 1];
      Follow(key, LimiterThreads.Exec(rate, front), TrailOf(rate, front, key), run[|run| - 1])
  }

  // ---------------------------------------------------------------- what every run keeps

  /** Every bucket belongs to one client. */
  predicate Objects(s: Limiter, clock: real) {
    && (forall k :: k in s.table ==> s.table[k] < |s.heap| && s.heap[s.table[k]].last <= clock)
    && (forall k, l :: k in s.table && l in s.table && k != l ==> s.table[k] != s.table[l])
    && (forall t :: t in s.held ==> s.held[t].bucket < |s.heap| && s.heap[s.held[t].bucket].last <= clock)
    && (forall k, t :: k in s.table && t in s.held && s.table[k] == s.held[t].bucket ==> s.held[t].key == k)
    && (forall t, u :: t in s.held && u in s.held && s.held[t].bucket == s.held[u].bucket ==> s.held[t].key == s.held[u].key)
  }

  /** Requests hold the same bucket exactly if they are of the same generation, and the bucket in the table is
      that of the latest. */
  ghost predicate Generations(s: Limiter, key: string, tr: Trail) {
    && (forall t :: t in tr.generations <==> t in s.held && s.held[t].key == key)
    && (forall t :: t in tr.generations ==>
          && tr.generations[t] <= tr.orphaned
          && (tr.generations[t] == tr.orphaned <==> key in s.table && s.held[t].bucket == s.table[key]))
    && (forall t, u :: t in tr.generations && u in tr.generations ==>
          (tr.generations[t] == tr.generations[u] <==> s.held[t].bucket == s.held[u].bucket))
  }

  /** Each generation's bucket is the one of its name, or a full one in place of it. */
  ghost predicate Followed(rate: real, s: Limiter, key: string, tr: Trail, never: Buckets, clock: real) {
    && (forall t :: t in tr.generations && t in s.held && s.held[t].bucket < |s.heap| ==>
          SameBucket(rate, s.heap[s.held[t].bucket], never, Name(tr.generations[t])))
    && (key in s.table && s.table[key] < |s.heap| ==> SameBucket(rate, s.heap[s.table[key]], never, Name(tr.orphaned)))
    && (key !in s.table && Name(tr.orphaned) in never ==> never[Name(tr.orphaned)].last + MAX_IDLE < clock)
    && (forall n :: n in never ==> 0.0 <= never[n].tokens <= rate && never[n].last <= clock && |n| <= tr.orphaned)
  }

  lemma ObjectsLater(s: Limiter, clock: real, later: real)
    requires Objects(s, clock) && clock <= later
    ensures Objects(s, later)
  {
  }

  /** A request takes the bucket in the table. */
  function Taken(s: Limiter, thread: nat, key: string): Limiter
    requires key in s.table
  {
    s.(held := s.held[thread := Hold(key, s.table[key])])
  }

  /** A bucket is made for a client that has none. */
  function Made(s: Limiter, key: string, b: Bucket): Limiter {
    s.(heap := s.heap + [b], table := s.table[key := |s.heap|])
  }

  lemma FetchIs(rate: real, s: Limiter, a: Step, clock: real)
    requires a.Fetch? && Objects(s, clock)
    ensures LimiterThreads.Do(rate, s, a)
         == if a.thread in s.held then s
            else Taken(if a.key in s.table then s else Made(s, a.key, Bucket(rate, a.now)), a.thread, a.key)
  {
  }

  lemma TakenObjects(s: Limiter, thread: nat, key: string, clock: real)
    requires key in s.table && Objects(s, clock) && thread !in s.held
    ensures Objects(Taken(s, thread, key), clock)
  {
  }

  lemma MadeObjects(s: Limiter, key: string, b: Bucket, clock: real)
    requires key !in s.table && Objects(s, clock) && b.last <= clock
    ensures Objects(Made(s, key, b), clock)
  {
  }

  lemma FetchObjects(rate: real, s: Limiter, a: Step)
    requires a.Fetch? && Objects(s, a.now)
    ensures Objects(LimiterThreads.Do(rate, s, a), a.now)
  {
    FetchIs(rate, s, a, a.now);
    hide LimiterThreads.Do, Objects, Made, Taken;
    if a.thread !in s.held {
      var s1 := s;
      if a.key !in s.table {
        MadeObjects(s, a.key, Bucket(rate, a.now), a.now);
        s1 := Made(s, a.key, Bucket(rate, a.now));
      }
      assert a.key in s1.table && a.thread !in s1.held by { MadeIs(s, a.key, Bucket(rate, a.now)); }
      TakenObjects(s1, a.thread, a.key, a.now);
    }
  }

  lemma MadeIs(s: Limiter, key: string, b: Bucket)
    ensures key in Made(s, key, b).table && Made(s, key, b).held == s.held && Made(s, key, b).log == s.log
  {
  }

  lemma SpendObjects(rate: real, s: Limiter, a: Step)
    requires a.Spend? && Objects(s, a.now)
    ensures Objects(LimiterThreads.Do(rate, s, a), a.now)
  {
    hide Refilled;
  }

  lemma CleanObjects(rate: real, s: Limiter, a: Step, clock: real)
    requires a.Clean? && Objects(s, clock)
    ensures Objects(LimiterThreads.Do(rate, s, a), clock)
  {
  }

  lemma TakenOwnGenerations(s: Limiter, key: string, tr: Trail, thread: nat, clock: real)
    requires key in s.table && thread !in s.held && Objects(s, clock) && Generations(s, key, tr)
    ensures Generations(Taken(s, thread, key), key, tr.(generations := tr.generations[thread := tr.orphaned]))
  {
    hide Name;
  }

  lemma TakenOtherGenerations(s: Limiter, key: string, tr: Trail, thread: nat, k: string, clock: real)
    requires k in s.table && k != key && thread !in s.held && Objects(s, clock) && Generations(s, key, tr)
    ensures Generations(Taken(s, thread, k), key, tr)
  {
    hide Name;
  }

  lemma MadeGenerations(s: Limiter, key: string, tr: Trail, k: string, b: Bucket, clock: real)
    requires k !in s.table && Objects(s, clock) && Generations(s, key, tr)
    ensures Generations(Made(s, k, b), key, tr)
  {
    hide Name;
  }

  lemma FetchGenerations(rate: real, s: Limiter, key: string, tr: Trail, a: Step)
    requires a.Fetch? && Objects(s, a.now) && Generations(s, key, tr)
    ensures Generations(LimiterThreads.Do(rate, s, a), key, Follow(key, s, tr, a))
  {
    FetchIs(rate, s, a, a.now);
    hide LimiterThreads.Do, Objects, Generations, Made, Taken;
    if a.thread !in s.held {
      var s1, b := s, Bucket(rate, a.now);
      if a.key !in s.table {
        MadeObjects(s, a.key, b, a.now);
        MadeGenerations(s, key, tr, a.key, b, a.now);
        s1 := Made(s, a.key, b);
      }
      assert a.key in s1.table && a.thread !in s1.held by { MadeIs(s, a.key, b); }
      if a.key == key {
        TakenOwnGenerations(s1, key, tr, a.thread, a.now);
      } else {
        TakenOtherGenerations(s1, key, tr, a.thread, a.key, a.now);
      }
    }
  }

  lemma LetGoGenerations(s: Limiter, key: string, tr: Trail, heap: seq<Bucket>, log: seq<Answer>, thread: nat,
                         requests: seq<Action>)
    requires Generations(s, key, tr)
    ensures Generations(s.(heap := heap, held := s.held - {thread}, log := log), key,
                        Trail(tr.orphaned, tr.generations - {thread}, requests))
  {
  }

  lemma SpendGenerations(rate: real, s: Limiter, key: string, tr: Trail, a: Step, clock: real)
    requires a.Spend? && Objects(s, clock) && Generations(s, key, tr)
    ensures Generations(LimiterThreads.Do(rate, s, a), key, Follow(key, s, tr, a))
  {
    hide Spent, Refilled, Name;
    var s', tr' := LimiterThreads.Do(rate, s, a), Follow(key, s, tr, a);
    LetGoGenerations(s, key, tr, s'.heap, s'.log, a.thread, tr'.requests);
    assert a.thread !in tr.generations ==> tr.generations - {a.thread} == tr.generations;
    hide Generations;
  }

  lemma CleanGenerations(rate: real, s: Limiter, key: string, tr: Trail, a: Step, clock: real)
    requires a.Clean? && Objects(s, clock) && Generations(s, key, tr)
    ensures Generations(LimiterThreads.Do(rate, s, a), key, Follow(key, s, tr, a))
  {
  }

  // ---------------------------------------------------------------- the buckets of the generations

  lemma TakenFollowed(rate: real, s: Limiter, key: string, tr: Trail, never: Buckets, thread: nat, k: string, clock: real)
    requires k in s.table && thread !in s.held && Objects(s, clock) && Generations(s, key, tr)
    requires Followed(rate, s, key, tr, never, clock)
    ensures Followed(rate, Taken(s, thread, k), key,
                     if k == key then tr.(generations := tr.generations[thread := tr.orphaned]) else tr, never, clock)
  {
    hide SameBucket, Name;
  }

  lemma MadeFollowed(rate: real, s: Limiter, key: string, tr: Trail, never: Buckets, k: string, clock: real)
    requires k !in s.table && Objects(s, clock) && Generations(s, key, tr)
    requires Followed(rate, s, key, tr, never, clock)
    ensures Followed(rate, Made(s, k, Bucket(rate, clock)), key, tr, never, clock)
  {
    if k == key {
      NewIsSame(rate, never, Name(tr.orphaned), clock);
    }
    hide SameBucket, Name;
  }

  lemma FetchFollowed(rate: real, s: Limiter, key: string, tr: Trail, never: Buckets, a: Step)
    requires a.Fetch? && Objects(s, a.now) && Generations(s, key, tr) && Followed(rate, s, key, tr, never, a.now)
    ensures Followed(rate, LimiterThreads.Do(rate, s, a), key, Follow(key, s, tr, a), never, a.now)
  {
    FetchIs(rate, s, a, a.now);
    hide LimiterThreads.Do, Objects, Generations, Followed, Made, Taken;
    if a.thread !in s.held {
      var s1, b := s, Bucket(rate, a.now);
      if a.key !in s.table {
        MadeObjects(s, a.key, b, a.now);
        MadeGenerations(s, key, tr, a.key, b, a.now);
        MadeFollowed(rate, s, key, tr, never, a.key, a.now);
        s1 := Made(s, a.key, b);
      }
      assert a.key in s1.table && a.thread !in s1.held by { MadeIs(s, a.key, b); }
      TakenFollowed(rate, s1, key, tr, never, a.thread, a.key, a.now);
    }
  }

  lemma CleanFollowed(rate: real, s: Limiter, key: string, tr: Trail, never: Buckets, a: Step, clock: real)
    requires a.Clean? && a.tick <= clock && Objects(s, clock) && Generations(s, key, tr)
    requires Followed(rate, s, key, tr, never, clock)
    ensures Followed(rate, LimiterThreads.Do(rate, s, a), key, Follow(key, s, tr, a), never, clock)
  {
    if Idle(s, key, a.tick) && !OrphansClient(s, key, a.tick) {
      assert SameBucket(rate, s.heap[s.table[key]], never, Name(tr.orphaned));
    }
  }

  /** A request of another client spends. */
  lemma OtherSpendFollowed(rate: real, s: Limiter, key: string, tr: Trail, never: Buckets, a: Step)
    requires a.Spend? && Objects(s, a.now) && Generations(s, key, tr) && Followed(rate, s, key, tr, never, a.now)
    requires a.thread in s.held && a.thread !in tr.generations
    ensures Followed(rate, LimiterThreads.Do(rate, s, a), key, tr, never, a.now)
  {
    hide SameBucket, Name, Spent, Refilled;
  }

  /** A request of the client spends from its generation's bucket. */
  lemma SameBucketLater(rate: real, never: Buckets, name: string, b: Bucket)
    ensures SameBucket(rate, b, never[name := b], name)
    ensures forall c, n :: n != name && SameBucket(rate, c, never, n) ==> SameBucket(rate, c, never[name := b], n)
  {
  }

  lemma NamesDiffer()
    ensures forall n: nat, m: nat :: Name(n) == Name(m) <==> n == m
  {
    forall n: nat, m: nat
      ensures Name(n) == Name(m) <==> n == m
    {
      assert |Name(n)| == n && |Name(m)| == m;
    }
  }

  lemma OwnSpendFollowed(rate: real, s: Limiter, key: string, tr: Trail, never: Buckets, a: Step, b: Bucket)
    requires a.Spend? && Objects(s, a.now) && Generations(s, key, tr) && Followed(rate, s, key, tr, never, a.now)
    requires a.thread in tr.generations && 0.0 <= b.tokens <= rate && b.last == a.now
    ensures var s' := s.(heap := s.heap[s.held[a.thread].bucket := b], held := s.held - {a.thread});
            Followed(rate, s', key, tr.(generations := tr.generations - {a.thread}),
                     never[Name(tr.generations[a.thread]) := b], a.now)
  {
    hide SameBucket, Name;
    var name := Name(tr.generations[a.thread]);
    NamesDiffer();
    SameBucketLater(rate, never, name, b);
    assert |name| <= tr.orphaned;
    hide Objects;
  }

  // ---------------------------------------------------------------- the answers of the generations

  /** How many requests were admitted in a window, of whatever client. */
  function AllWithin(log: seq<Answer>, from: real, to: real): nat {
    if log == [] then 0 else
    var last := log[|log| - 1];
    AllWithin(log[..|log| - 1], from, to) + if last.admitted && from <= last.at <= to then 1 else 0
  }

  /** The client's answers and those of its generations: as many are admitted in every window, and every
      answer is some generation's. */
  ghost predicate SameAnswers(log: seq<Answer>, key: string, named: seq<Answer>, generations: nat) {
    && (forall from, to :: AdmittedWithin(log, key, from, to) == AllWithin(named, from, to))
    && (forall i :: 0 <= i < |named| ==> |named[i].key| < generations && named[i].key == Name(|named[i].key|))
  }

  lemma OneMoreAnswer(log: seq<Answer>, key: string, named: seq<Answer>, generations: nat, answer: Answer, generation: nat)
    requires SameAnswers(log, key, named, generations) && answer.key == key && generation < generations
    ensures SameAnswers(log + [answer], key, named + [answer.(key := Name(generation))], generations)
  {
    var log', named' := log + [answer], named + [answer.(key := Name(generation))];
    assert log'[..|log|] == log && named'[..|named|] == named;
    forall from, to
      ensures AdmittedWithin(log', key, from, to) == AllWithin(named', from, to)
    {
      assert AdmittedWithin(log, key, from, to) == AllWithin(named, from, to);
    }
  }

  lemma OthersAnswer(log: seq<Answer>, key: string, named: seq<Answer>, generations: nat, answer: Answer)
    requires SameAnswers(log, key, named, generations) && answer.key != key
    ensures SameAnswers(log + [answer], key, named, generations)
  {
    var log' := log + [answer];
    assert log'[..|log|] == log;
    forall from, to
      ensures AdmittedWithin(log', key, from, to) == AllWithin(named, from, to)
    {
      assert AdmittedWithin(log, key, from, to) == AllWithin(named, from, to);
    }
  }

  lemma MoreGenerations(log: seq<Answer>, key: string, named: seq<Answer>, generations: nat, more: nat)
    requires SameAnswers(log, key, named, generations) && generations <= more
    ensures SameAnswers(log, key, named, more)
  {
  }

  // ---------------------------------------------------------------- all together

  ghost predicate Faithful(rate: real, s: Limiter, key: string, tr: Trail, clock: real) {
    && Objects(s, clock) && Generations(s, key, tr)
    && Followed(rate, s, key, tr, RateLimiting.Exec(rate, tr.requests).buckets, clock)
    && SameAnswers(s.log, key, RateLimiting.Exec(rate, tr.requests).log, tr.orphaned + 1)
    && Timed(tr.requests) && Until(tr.requests, clock)
  }

  lemma FaithfulLater(rate: real, s: Limiter, key: string, tr: Trail, clock: real, later: real)
    requires Faithful(rate, s, key, tr, clock) && clock <= later
    ensures Faithful(rate, s, key, tr, later)
  {
    hide SameBucket, RateLimiting.Exec, Generations, SameAnswers, Timed, Name;
  }

  lemma FetchFaithful(rate: real, s: Limiter, key: string, tr: Trail, a: Step)
    requires a.Fetch? && Faithful(rate, s, key, tr, a.now)
    ensures Faithful(rate, LimiterThreads.Do(rate, s, a), key, Follow(key, s, tr, a), a.now)
  {
    hide Objects, Generations, Followed, SameAnswers, RateLimiting.Exec, Timed, Until;
    FetchObjects(rate, s, a);
    FetchGenerations(rate, s, key, tr, a);
    FetchFollowed(rate, s, key, tr, RateLimiting.Exec(rate, tr.requests).buckets, a);
  }

  lemma CleanFaithful(rate: real, s: Limiter, key: string, tr: Trail, a: Step, clock: real)
    requires a.Clean? && a.tick <= clock && Faithful(rate, s, key, tr, clock)
    ensures Faithful(rate, LimiterThreads.Do(rate, s, a), key, Follow(key, s, tr, a), clock)
  {
    hide Objects, Generations, Followed, SameAnswers, RateLimiting.Exec, Timed, Until, OrphansClient;
    CleanObjects(rate, s, a, clock);
    CleanGenerations(rate, s, key, tr, a, clock);
    CleanFollowed(rate, s, key, tr, RateLimiting.Exec(rate, tr.requests).buckets, a, clock);
    MoreGenerations(s.log, key, RateLimiting.Exec(rate, tr.requests).log, tr.orphaned + 1, Follow(key, s, tr, a).orphaned + 1);
  }

  lemma OtherSpendFaithful(rate: real, s: Limiter, key: string, tr: Trail, a: Step)
    requires a.Spend? && a.thread !in tr.generations && Faithful(rate, s, key, tr, a.now)
    ensures Faithful(rate, LimiterThreads.Do(rate, s, a), key, tr, a.now)
  {
    SpendObjects(rate, s, a);
    SpendGenerations(rate, s, key, tr, a, a.now);
    if a.thread in s.held {
      assert s.held[a.thread].key != key;
      OtherSpendFollowed(rate, s, key, tr, RateLimiting.Exec(rate, tr.requests).buckets, a);
      var b := s.heap[s.held[a.thread].bucket];
      OthersAnswer(s.log, key, RateLimiting.Exec(rate, tr.requests).log, tr.orphaned + 1,
                   Answer(s.held[a.thread].key, a.now, Refilled(rate, rate, b, a.now) >= 1.0));
    }
    hide Objects, Generations, Followed, SameAnswers, RateLimiting.Exec, Timed, Until;
  }

  lemma OwnSpendIs(rate: real, s: Limiter, key: string, tr: Trail, a: Step, never: State)
    requires 1.0 <= rate && a.Spend? && a.thread in tr.generations && Objects(s, a.now) && Generations(s, key, tr)
    requires Followed(rate, s, key, tr, never.buckets, a.now)
    ensures var name := Name(tr.generations[a.thread]);
            var never' := RateLimiting.Do(rate, never, Request(name, a.now, a.now));
            var s' := LimiterThreads.Do(rate, s, a);
            && Followed(rate, s', key, tr.(generations := tr.generations - {a.thread}), never'.buckets, a.now)
            && exists ok :: s'.log == s.log + [Answer(key, a.now, ok)] && never'.log == never.log + [Answer(name, a.now, ok)]
  {
    var h, name := s.held[a.thread], Name(tr.generations[a.thread]);
    var b := s.heap[h.bucket];
    assert SameBucket(rate, b, never.buckets, name);
    SpendsAlike(rate, b, never.buckets, name, a.now);
    SpentNow(rate, b, a.now);
    var spent, ok := Spent(rate, rate, b, a.now), Refilled(rate, rate, b, a.now) >= 1.0;
    OwnSpendFollowed(rate, s, key, tr, never.buckets, a, spent);
    hide Objects, Generations, Followed, SameBucket, Name, Refilled, Spent;
    assert LimiterThreads.Do(rate, s, a).log == s.log + [Answer(key, a.now, ok)];
  }

  lemma GenerationIsPast(s: Limiter, key: string, tr: Trail, thread: nat)
    requires Generations(s, key, tr) && thread in tr.generations
    ensures tr.generations[thread] <= tr.orphaned
  {
  }

  lemma OwnSpendFaithful(rate: real, s: Limiter, key: string, tr: Trail, a: Step)
    requires 1.0 <= rate && a.Spend? && a.thread in tr.generations && Faithful(rate, s, key, tr, a.now)
    ensures Faithful(rate, LimiterThreads.Do(rate, s, a), key, Follow(key, s, tr, a), a.now)
  {
    hide Objects, Generations, Followed, SameAnswers, RateLimiting.Exec, Timed, Until, RateLimiting.Do, LimiterThreads.Do, Name;
    var generation := tr.generations[a.thread];
    GenerationIsPast(s, key, tr, a.thread);
    var never, request := RateLimiting.Exec(rate, tr.requests), Request(Name(generation), a.now, a.now);
    SpendObjects(rate, s, a);
    SpendGenerations(rate, s, key, tr, a, a.now);
    OwnSpendIs(rate, s, key, tr, a, never);
    TimedSnoc(tr.requests, request, a.now);
    RateLimiting.ExecSnoc(rate, tr.requests, request);
    var s', never' := LimiterThreads.Do(rate, s, a), RateLimiting.Do(rate, never, request);
    var ok :| s'.log == s.log + [Answer(key, a.now, ok)] && never'.log == never.log + [Answer(Name(generation), a.now, ok)];
    OneMoreAnswer(s.log, key, never.log, tr.orphaned + 1, Answer(key, a.now, ok), generation);
    SameTrail(rate, s', key, Follow(key, s, tr, a), tr.(generations := tr.generations - {a.thread}),
              never'.buckets, a.now);
  }

  /** Following does not look at the requests so far. */
  lemma SameTrail(rate: real, s: Limiter, key: string, tr1: Trail, tr2: Trail, never: Buckets, clock: real)
    requires tr1.orphaned == tr2.orphaned && tr1.generations == tr2.generations
    ensures Followed(rate, s, key, tr1, never, clock) <==> Followed(rate, s, key, tr2, never, clock)
  {
    hide SameBucket, Name;
  }

  lemma FaithfulAtStart(rate: real, key: string, clock: real)
    ensures Faithful(rate, EMPTY, key, Trail(0, map[], []), clock)
  {
  }

  lemma {:induction false} EveryRunIsFaithful(rate: real, run: seq<Step>, key: string, clock: real)
    requires 1.0 <= rate && InOrder(run) && NotAfter(run, clock)
    ensures Faithful(rate, LimiterThreads.Exec(rate, run), key, TrailOf(rate, run, key), clock)
  {
    hide Faithful, LimiterThreads.Do, Follow;
    if run == [] {
      FaithfulAtStart(rate, key, clock);
    } else {
      var front, a := run[..|run| - 1], run[|run| - 1];
      var s, tr := LimiterThreads.Exec(rate, front), TrailOf(rate, front, key);
      if a.Clean? {
        EveryRunIsFaithful(rate, front, key, clock);
        CleanFaithful(rate, s, key, tr, a, clock);
      } else {
        EveryRunIsFaithful(rate, front, key, At(a));
        StepFaithful(rate, s, key, tr, a);
        FaithfulLater(rate, LimiterThreads.Do(rate, s, a), key, Follow(key, s, tr, a), At(a), clock);
      }
    }
  }

  lemma StepFaithful(rate: real, s: Limiter, key: string, tr: Trail, a: Step)
    requires 1.0 <= rate && !a.Clean? && Faithful(rate, s, key, tr, At(a))
    ensures Faithful(rate, LimiterThreads.Do(rate, s, a), key, Follow(key, s, tr, a), At(a))
  {
    hide Faithful, LimiterThreads.Do;
    if a.Fetch? {
      FetchFaithful(rate, s, key, tr, a);
    } else if a.thread in tr.generations {
      OwnSpendFaithful(rate, s, key, tr, a);
    } else {
      OtherSpendFaithful(rate, s, key, tr, a);
    }
  }

  // ---------------------------------------------------------------- the bound

  /** The admitted requests of the first `n` generations. */
  function SumWithin(log: seq<Answer>, n: nat, from: real, to: real): nat {
    if n == 0 then 0 else SumWithin(log, n - 1, from, to) + AdmittedWithin(log, Name(n - 1), from, to)
  }

  lemma {:induction false} SumSnoc(log: seq<Answer>, answer: Answer, n: nat, from: real, to: real)
    requires answer.key == Name(|answer.key|)
    ensures SumWithin(log + [answer], n, from, to)
         == SumWithin(log, n, from, to) + if answer.admitted && from <= answer.at <= to && |answer.key| < n then 1 else 0
  {
    if n > 0 {
      SumSnoc(log, answer, n - 1, from, to);
      assert (log + [answer])[..|log|] == log;
      assert |Name(n - 1)| == n - 1;
    }
  }

  lemma {:induction false} SumOfNothing(n: nat, from: real, to: real)
    ensures SumWithin([], n, from, to) == 0
  {
    if n > 0 {
      SumOfNothing(n - 1, from, to);
    }
  }

  lemma {:induction false} AllIsSum(log: seq<Answer>, n: nat, from: real, to: real)
    requires forall i :: 0 <= i < |log| ==> |log[i].key| < n && log[i].key == Name(|log[i].key|)
    ensures AllWithin(log, from, to) == SumWithin(log, n, from, to)
  {
    if log == [] {
      SumOfNothing(n, from, to);
    } else {
      var front, last := log[..|log| - 1], log[|log| - 1];
      AllIsSum(front, n, from, to);
      SumSnoc(front, last, n, from, to);
      assert front + [last] == log;
    }
  }

  lemma {:induction false} SumIsBounded(rate: real, requests: seq<Action>, n: nat, from: real, to: real)
    requires 1.0 <= rate && Timed(requests) && from <= to
    ensures SumWithin(RateLimiting.Exec(rate, requests).log, n, from, to) as real <= n as real * (rate + Gain(to - from, rate))
  {
    hide RateLimiting.Exec, Timed, Gain;
    if n > 0 {
      SumIsBounded(rate, requests, n - 1, from, to);
      RateBound(rate, requests, Name(n - 1), from, to);
      var due := rate + Gain(to - from, rate);
      assert n as real * due == (n - 1) as real * due + due;
    }
  }

  lemma {:induction false} TrailCounts(rate: real, run: seq<Step>, key: string)
    ensures TrailOf(rate, run, key).orphaned == Orphanings(rate, run, key)
  {
    if run != [] {
      hide OrphansClient, LimiterThreads.Exec;
      TrailCounts(rate, run[..|run| - 1], key);
    }
  }

  /** With a rate below one nothing is admitted. */
  lemma NothingWithin(rate: real, run: seq<Step>, key: string, from: real, to: real)
    requires rate < 1.0
    ensures AdmittedWithin(LimiterThreads.Exec(rate, run).log, key, from, to) == 0
  {
    hide LimiterThreads.Exec;
    LimiterThreads.NothingBelowOne(rate, run);
    WithinIsLess(LimiterThreads.Exec(rate, run).log, key, from, to);
  }

  /** In every window of every run, a client is admitted at most the burst plus the rate times the window's
      length, once and once more for each sweep that has deleted its bucket while a request held it. */
  lemma OrphansBoundRate(rate: real, run: seq<Step>, key: string, from: real, to: real)
    requires InOrder(run) && from <= to
    ensures AdmittedWithin(LimiterThreads.Exec(rate, run).log, key, from, to) as real
         <= if rate < 1.0 then 0.0 else (1 + Orphanings(rate, run, key)) as real * (rate + Gain(to - from, rate))
  {
    hide *;
    if rate < 1.0 {
      NothingWithin(rate, run, key, from, to);
    } else {
      var s, tr := LimiterThreads.Exec(rate, run), TrailOf(rate, run, key);
      EveryRunIsFaithful(rate, run, key, LastStep(run));
      FaithfulCounts(rate, s, key, tr, LastStep(run), from, to);
      SumIsBounded(rate, tr.requests, tr.orphaned + 1, from, to);
      TrailCounts(rate, run, key);
    }
  }

  lemma FaithfulCounts(rate: real, s: Limiter, key: string, tr: Trail, clock: real, from: real, to: real)
    requires Faithful(rate, s, key, tr, clock)
    ensures Timed(tr.requests)
    ensures AdmittedWithin(s.log, key, from, to)
         == SumWithin(RateLimiting.Exec(rate, tr.requests).log, tr.orphaned + 1, from, to)
  {
    hide Objects, Generations, Followed, RateLimiting.Exec, Timed;
    AllIsSum(RateLimiting.Exec(rate, tr.requests).log, tr.orphaned + 1, from, to);
  }
}
