/** The limiter as it runs (internal/middleware/middleware.go): a request is two critical sections, one that
  fetches or makes the client's bucket and one that spends from it, and sweeps and other requests come
  in between.  A sweep that deletes a bucket somebody still holds makes it an orphan. */
module LimiterThreads {
  import opened RateLimiting

  datatype Step = Fetch(thread: nat, key: string, now: real) | Spend(thread: nat, now: real) | Clean(tick: real)

  /** What a request holds between its two sections. */
  datatype Hold = Hold(key: string, bucket: nat)

  datatype Limiter = Limiter(heap: seq<Bucket>, table: map<string, nat>, held: map<nat, Hold>, log: seq<Answer>)

  const EMPTY := Limiter([], map[], map[], [])

  predicate Possible(s: Limiter, a: Step) {
    match a
    case Fetch(thread, key, _) => thread !in s.held && (key in s.table ==> s.table[key] < |s.heap|)
    case Spend(thread, _) => thread in s.held && s.held[thread].bucket < |s.heap|
    case Clean(_) => true
  }

  predicate Idle(s: Limiter, key: string, tick: real) {
    key in s.table && s.table[key] < |s.heap| && tick - s.heap[s.table[key]].last > MAX_IDLE
  }

  function Do(rate: real, s: Limiter, a: Step): Limiter {
    if !Possible(s, a) then s else
    match a
    case Fetch(thread, key, now) =>
      if key in s.table then s.(held := s.held[thread := Hold(key, s.table[key])])
      else s.(heap := s.heap + [Bucket(rate, now)], table := s.table[key := |s.heap|],
              held := s.held[thread := Hold(key, |s.heap|)])
    case Spend(thread, now) =>
      var h := s.held[thread];
      var b := s.heap[h.bucket];
      s.(heap := s.heap[h.bucket := Spent(rate, rate, b, now)], held := s.held - {thread},
         log := s.log + [Answer(h.key, now, Refilled(rate, rate, b, now) >= 1.0)])
    case Clean(tick) => s.(table := map key | key in s.table && !Idle(s, key, tick) :: s.table[key])
  }

  function Exec(rate: real, run: seq<Step>): Limiter {
    if run == [] then EMPTY else Do(rate, Exec(rate, run[..|run| - 1]), run[|run| - 1])
  }

  function At(a: Step): real {
    match a
    case Fetch(_, _, now) => now
    case Spend(_, now) => now
    case Clean(tick) => tick
  }

  /** The clock does not run backwards, and no tick is ahead of it. */
  predicate InOrder(run: seq<Step>) {
    forall i, j :: 0 <= i < j < |run| && !run[j].Clean? ==> At(run[i]) <= At(run[j])
  }

  predicate NotAfter(run: seq<Step>, clock: real) {
    forall i :: 0 <= i < |run| ==> At(run[i]) <= clock
  }

  /** A sweep with this tick would delete a bucket somebody holds. */
  predicate Orphans(s: Limiter, tick: real) {
    exists t :: t in s.held && Idle(s, s.held[t].key, tick)
  }

  predicate OrphanFree(rate: real, run: seq<Step>) {
    run == [] ||
    var front, a := run[..|run| - 1], run[|run| - 1];
    OrphanFree(rate, front) && (a.Clean? ==> !Orphans(Exec(rate, front), a.tick))
  }

  function Fetched(pending: map<nat, string>, a: Step): map<nat, string> {
    match a
    case Fetch(thread, key, _) => if thread in pending then pending else pending[thread := key]
    case Spend(thread, _) => pending - {thread}
    case Clean(_) => pending
  }

  /** The client each thread has fetched a bucket for and not yet spent. */
  function Pending(run: seq<Step>): map<nat, string> {
    if run == [] then map[] else Fetched(Pending(run[..|run| - 1]), run[|run| - 1])
  }

  function AsRequest(pending: map<nat, string>, a: Step): seq<Action> {
    if a.Spend? && a.thread in pending then [Request(pending[a.thread], a.now, a.now)] else []
  }

  /** The same requests as single steps, each at the moment it spends, and no sweeps. */
  function Atomic(run: seq<Step>): seq<Action> {
    if run == [] then []
    else Atomic(run[..|run| - 1]) + AsRequest(Pending(run[..|run| - 1]), run[|run| - 1])
  }

  // ---------------------------------------------------------------- as if in one step

  /** A bucket is the one the atomic limiter has, or a full one not yet used in place of none or of one that
      had refilled when it was made. */
  ghost predicate SameBucket(rate: real, b: Bucket, never: Buckets, key: string) {
    || (key in never && b == never[key])
    || (b.tokens == rate && (key in never ==> never[key].last + MAX_IDLE < b.last))
  }

  ghost predicate Linked(rate: real, s: Limiter, never: Buckets, clock: real) {
    && (forall k :: k in s.table ==>
          s.table[k] < |s.heap| && s.heap[s.table[k]].last <= clock && SameBucket(rate, s.heap[s.table[k]], never, k))
    && (forall k, l :: k in s.table && l in s.table && k != l ==> s.table[k] != s.table[l])
    && (forall t :: t in s.held ==> s.held[t].key in s.table && s.table[s.held[t].key] == s.held[t].bucket)
    && (forall k :: k in never ==>
          && 0.0 <= never[k].tokens <= rate && never[k].last <= clock
          && (k in s.table || never[k].last + MAX_IDLE < clock))
  }

  lemma LinkedLater(rate: real, s: Limiter, never: Buckets, clock: real, later: real)
    requires Linked(rate, s, never, clock) && clock <= later
    ensures Linked(rate, s, never, later)
  {
  }

  lemma FetchNewKeepsLink(rate: real, s: Limiter, never: Buckets, thread: nat, key: string, now: real)
    requires thread !in s.held && key !in s.table && Linked(rate, s, never, now)
    ensures Linked(rate, s.(heap := s.heap + [Bucket(rate, now)], table := s.table[key := |s.heap|],
                            held := s.held[thread := Hold(key, |s.heap|)]), never, now)
  {
    hide SameBucket;
    NewIsSame(rate, never, key, now);
    assert forall k :: k in s.table ==> (s.heap + [Bucket(rate, now)])[s.table[k]] == s.heap[s.table[k]];
  }

  lemma FetchKeepsLink(rate: real, s: Limiter, never: Buckets, a: Step)
    requires a.Fetch? && Linked(rate, s, never, a.now)
    ensures Linked(rate, Do(rate, s, a), never, a.now)
  {
    if Possible(s, a) && a.key !in s.table {
      hide Linked;
      FetchNewKeepsLink(rate, s, never, a.thread, a.key, a.now);
    }
  }

  lemma NewIsSame(rate: real, never: Buckets, key: string, now: real)
    requires key in never ==> never[key].last + MAX_IDLE < now
    ensures SameBucket(rate, Bucket(rate, now), never, key)
  {
  }

  lemma CleanKeepsLink(rate: real, s: Limiter, never: Buckets, tick: real, clock: real)
    requires Linked(rate, s, never, clock) && tick <= clock && !Orphans(s, tick)
    ensures Linked(rate, Do(rate, s, Clean(tick)), never, clock)
  {
    var s' := Do(rate, s, Clean(tick));
    forall t | t in s'.held
      ensures s'.held[t].key in s'.table
    {
      assert !Idle(s, s.held[t].key, tick);
    }
  }

  /** Spending from such a bucket and spending from the atomic limiter's come to the same. */
  lemma SpendsAlike(rate: real, b: Bucket, never: Buckets, key: string, now: real)
    requires 1.0 <= rate && SameBucket(rate, b, never, key) && b.last <= now
    requires key in never ==> 0.0 <= never[key].tokens <= rate && never[key].last <= now
    ensures Refilled(rate, rate, b, now) == Refilled(rate, rate, BucketFor(rate, never, key, now), now)
    ensures 1.0 <= rate ==> 0.0 <= Spent(rate, rate, b, now).tokens <= rate
    ensures Spent(rate, rate, b, now) == Spent(rate, rate, BucketFor(rate, never, key, now), now)
  {
    hide Gain;
    GainIsPositive(b, now, rate);
    GainIsPositive(Bucket(rate, now), now, rate);
    if key in never {
      GainIsPositive(never[key], now, rate);
      if b != never[key] {
        assert b == Bucket(rate, b.last);
        IdleBucketIsFull(rate, never[key], b.last, now);
      }
    }
  }

  /** The table's buckets and the atomic limiter's after spending from one of them. */
  lemma SpendKeepsBuckets(rate: real, s: Limiter, never: Buckets, thread: nat, now: real, b: Bucket)
    requires thread in s.held && Linked(rate, s, never, now)
    requires b.last == now && 0.0 <= b.tokens <= rate
    ensures var h := s.held[thread];
            Linked(rate, s.(heap := s.heap[h.bucket := b], held := s.held - {thread}), never[h.key := b], now)
  {
  }

  lemma SpendKeepsLink(rate: real, s: Limiter, never: State, a: Step)
    requires 1.0 <= rate && a.Spend? && Possible(s, a) && Linked(rate, s, never.buckets, a.now) && s.log == never.log
    ensures var s' := Do(rate, s, a);
            var never' := RateLimiting.Do(rate, never, Request(s.held[a.thread].key, a.now, a.now));
            Linked(rate, s', never'.buckets, a.now) && s'.log == never'.log
  {
    hide Refilled, Spent;
    var h := s.held[a.thread];
    var b := s.heap[h.bucket];
    SpendsAlike(rate, b, never.buckets, h.key, a.now);
    SpentNow(rate, b, a.now);
    SpendKeepsBuckets(rate, s, never.buckets, a.thread, a.now, Spent(rate, rate, b, a.now));
    hide Linked;
  }

  lemma SpentNow(rate: real, b: Bucket, now: real)
    ensures Spent(rate, rate, b, now).last == now
  {
  }

  lemma {:induction false} RunsLink(rate: real, run: seq<Step>, clock: real)
    requires 1.0 <= rate && InOrder(run) && NotAfter(run, clock) && OrphanFree(rate, run)
    ensures Linked(rate, Exec(rate, run), RateLimiting.Exec(rate, Atomic(run)).buckets, clock)
    ensures Exec(rate, run).log == RateLimiting.Exec(rate, Atomic(run)).log
  {
    if run != [] {
      hide Do, Linked, Possible;
      var front, a := run[..|run| - 1], run[|run| - 1];
      HeldIsPending(rate, front, a);
      var s, atomic := Exec(rate, front), Atomic(front);
      if a.Clean? {
        RunsLink(rate, front, clock);
        CleanKeepsLink(rate, s, RateLimiting.Exec(rate, atomic).buckets, a.tick, clock);
        NoAnswer(rate, s, a);
        assert a == Clean(a.tick) && Atomic(run) == atomic;
      } else {
        RunsLink(rate, front, At(a));
        if a.Spend? && Possible(s, a) {
          var request := Request(s.held[a.thread].key, a.now, a.now);
          SpendKeepsLink(rate, s, RateLimiting.Exec(rate, atomic), a);
          RateLimiting.ExecSnoc(rate, atomic, request);
        } else {
          assert Atomic(run) == atomic;
          NoAnswer(rate, s, a);
          if a.Fetch? {
            FetchKeepsLink(rate, s, RateLimiting.Exec(rate, atomic).buckets, a);
          }
        }
        LinkedLater(rate, Exec(rate, run), RateLimiting.Exec(rate, Atomic(run)).buckets, At(a), clock);
      }
    }
  }

  /** Objects never vanish, and what is held is what is pending. */
  ghost predicate WellFormed(s: Limiter, pending: map<nat, string>) {
    && (forall k :: k in s.table ==> s.table[k] < |s.heap|)
    && s.held.Keys == pending.Keys
    && (forall t :: t in s.held ==> s.held[t].bucket < |s.heap| && s.held[t].key == pending[t])
  }

  lemma {:induction false} EveryRun(rate: real, run: seq<Step>)
    ensures WellFormed(Exec(rate, run), Pending(run))
  {
    if run != [] {
      hide Spent, Refilled, Idle;
      EveryRun(rate, run[..|run| - 1]);
    }
  }

  lemma HeldIsPending(rate: real, run: seq<Step>, a: Step)
    ensures a.Spend? ==> (Possible(Exec(rate, run), a) <==> a.thread in Pending(run))
    ensures a.Spend? && a.thread in Pending(run) ==> Exec(rate, run).held[a.thread].key == Pending(run)[a.thread]
  {
    EveryRun(rate, run);
  }

  lemma NoAnswer(rate: real, s: Limiter, a: Step)
    requires !(a.Spend? && Possible(s, a))
    ensures Do(rate, s, a).log == s.log
    ensures a.Spend? ==> Do(rate, s, a) == s
  {
  }

  /** With a rate below one nothing is admitted, orphans or not. */
  lemma {:induction false} NothingBelowOne(rate: real, run: seq<Step>)
    requires rate < 1.0
    ensures var log, requests := Exec(rate, run).log, Requests(Atomic(run));
            |log| == |requests| && forall i :: 0 <= i < |log| ==> log[i] == Answer(requests[i].0, requests[i].1, false)
  {
    if run != [] {
      var front, a := run[..|run| - 1], run[|run| - 1];
      NothingBelowOne(rate, front);
      HeldIsPending(rate, front, a);
      if a.Spend? && Possible(Exec(rate, front), a) {
        var atomic := Atomic(front);
        var request := Request(Exec(rate, front).held[a.thread].key, a.now, a.now);
        assert (atomic + [request])[..|atomic|] == atomic;
      } else {
        NoAnswer(rate, Exec(rate, front), a);
        assert Atomic(run) == Atomic(front);
      }
    }
  }

  lemma TimedSnoc(run: seq<Action>, request: Action, clock: real)
    requires Timed(run) && request.Request? && Until(run, request.created) && request.created <= request.now <= clock
    ensures Timed(run + [request]) && Until(run + [request], clock)
  {
  }

  /** The atomic requests come in the order of time. */
  lemma {:induction false} AtomicIsTimed(run: seq<Step>, clock: real)
    requires InOrder(run) && NotAfter(run, clock)
    ensures Timed(Atomic(run)) && Until(Atomic(run), clock)
  {
    if run != [] {
      hide Timed, Until;
      var front, a := run[..|run| - 1], run[|run| - 1];
      if a.Spend? && a.thread in Pending(front) {
        AtomicIsTimed(front, a.now);
        TimedSnoc(Atomic(front), Request(Pending(front)[a.thread], a.now, a.now), clock);
      } else {
        AtomicIsTimed(front, clock);
        assert Atomic(run) == Atomic(front);
      }
    } else {
      assert Atomic(run) == [];
    }
  }

  /** While no sweep deletes a bucket somebody holds, the limiter answers as if each request were one step,
      taken when it spends, and no bucket were ever deleted. */
  lemma AsIfAtomic(rate: real, run: seq<Step>)
    requires InOrder(run) && OrphanFree(rate, run)
    ensures Exec(rate, run).log == RateLimiting.Exec(rate, Atomic(run)).log
  {
    hide Exec, RateLimiting.Exec;
    if rate < 1.0 {
      var atomic := Atomic(run);
      NothingBelowOne(rate, run);
      RateLimiting.NothingBelowOne(rate, atomic);
      LogAnswersRequests(rate, atomic);
    } else {
      RunsLink(rate, run, LastStep(run));
    }
  }

  function LastStep(run: seq<Step>): (clock: real)
    ensures NotAfter(run, clock)
  {
    if run == [] then 0.0 else
    var before, last := LastStep(run[..|run| - 1]), At(run[|run| - 1]);
    if before < last then last else before
  }

  // ---------------------------------------------------------------- orphans are noticed

  predicate NoSweep(run: seq<Step>) {
    forall i :: 0 <= i < |run| ==> !run[i].Clean?
  }

  lemma ExecSnoc(rate: real, run: seq<Step>, a: Step)
    ensures Exec(rate, run + [a]) == Do(rate, Exec(rate, run), a)
  {
    assert (run + [a])[..|run|] == run;
  }

  lemma AtomicSnoc(run: seq<Step>, a: Step)
    ensures Pending(run + [a]) == Fetched(Pending(run), a)
    ensures Atomic(run + [a]) == Atomic(run) + AsRequest(Pending(run), a)
  {
    assert (run + [a])[..|run|] == run;
  }

  lemma {:induction false} SweepLeavesAtomic(run: seq<Step>, tick: real, more: seq<Step>)
    ensures Pending(run + [Clean(tick)] + more) == Pending(run + more)
    ensures Atomic(run + [Clean(tick)] + more) == Atomic(run + more)
  {
    hide Pending, Atomic;
    var swept := run + [Clean(tick)];
    if more == [] {
      assert swept + more == swept && run + more == run;
      AtomicSnoc(run, Clean(tick));
      assert Atomic(run) + [] == Atomic(run);
    } else {
      hide Fetched, AsRequest;
      var front, a := more[..|more| - 1], more[|more| - 1];
      SweepLeavesAtomic(run, tick, front);
      assert swept + more == (swept + front) + [a];
      assert run + more == (run + front) + [a];
      AtomicSnoc(swept + front, a);
      AtomicSnoc(run + front, a);
    }
  }

  lemma OrphanFreeSnoc(rate: real, run: seq<Step>, a: Step)
    requires OrphanFree(rate, run) && !a.Clean?
    ensures OrphanFree(rate, run + [a])
  {
    assert (run + [a])[..|run|] == run;
  }

  lemma {:induction false} StaysOrphanFree(rate: real, run: seq<Step>, more: seq<Step>)
    requires OrphanFree(rate, run) && NoSweep(more)
    ensures OrphanFree(rate, run + more)
  {
    hide OrphanFree;
    if more == [] {
      assert run + more == run;
    } else {
      var front, a := more[..|more| - 1], more[|more| - 1];
      StaysOrphanFree(rate, run, front);
      OrphanFreeSnoc(rate, run + front, a);
      assert run + more == run + front + [a];
    }
  }

  lemma CleanSweepUnnoticed(rate: real, run: seq<Step>, tick: real, more: seq<Step>)
    requires OrphanFree(rate, run) && NoSweep(more) && !Orphans(Exec(rate, run), tick)
    requires InOrder(run + [Clean(tick)] + more)
    ensures Exec(rate, run + [Clean(tick)] + more).log == Exec(rate, run + more).log
  {
    hide Exec, RateLimiting.Exec, Orphans;
    var swept := run + [Clean(tick)];
    assert OrphanFree(rate, swept) by { assert swept[..|swept| - 1] == run; }
    StaysOrphanFree(rate, swept, more);
    StaysOrphanFree(rate, run, more);
    WithoutSweepInOrder(run, tick, more);
    AsIfAtomic(rate, swept + more);
    AsIfAtomic(rate, run + more);
    SweepLeavesAtomic(run, tick, more);
  }

  lemma WithoutSweepInOrder(run: seq<Step>, tick: real, more: seq<Step>)
    requires InOrder(run + [Clean(tick)] + more)
    ensures InOrder(run + more)
  {
    var a, b := run + [Clean(tick)] + more, run + more;
    forall i, j | 0 <= i < j < |b| && !b[j].Clean?
      ensures At(b[i]) <= At(b[j])
    {
      assert b[i] == a[if i < |run| then i else i + 1];
      assert b[j] == a[if j < |run| then j else j + 1];
    }
  }

  /** A burst of requests of one client at one moment. */
  function Burst(thread: nat, key: string, now: real, n: nat): seq<Step> {
    if n == 0 then [] else Burst(thread, key, now, n - 1) + [Fetch(thread, key, now)] + [Spend(thread, now)]
  }

  /** What a client can still spend at the moment. */
  function Left(rate: real, s: Limiter, key: string): real {
    if key in s.table && s.table[key] < |s.heap| then s.heap[s.table[key]].tokens else rate
  }

  predicate Ready(s: Limiter, thread: nat, key: string, now: real) {
    thread !in s.held && (key in s.table ==> s.table[key] < |s.heap| && s.heap[s.table[key]].last == now)
  }

  lemma OneMore(rate: real, s: Limiter, thread: nat, key: string, now: real)
    requires 1.0 <= Left(rate, s, key) <= rate && Ready(s, thread, key, now)
    ensures var s' := Do(rate, Do(rate, s, Fetch(thread, key, now)), Spend(thread, now));
            && s'.log == s.log + [Answer(key, now, true)]
            && Ready(s', thread, key, now) && Left(rate, s', key) == Left(rate, s, key) - 1.0
  {
    GainOfNothing(rate);
  }

  lemma OneMoreRun(rate: real, run: seq<Step>, thread: nat, key: string, now: real)
    requires 1.0 <= Left(rate, Exec(rate, run), key) <= rate && Ready(Exec(rate, run), thread, key, now)
    ensures var s, s' := Exec(rate, run), Exec(rate, run + [Fetch(thread, key, now)] + [Spend(thread, now)]);
            && AdmittedWithin(s'.log, key, now, now) == AdmittedWithin(s.log, key, now, now) + 1
            && Ready(s', thread, key, now) && Left(rate, s', key) == Left(rate, s, key) - 1.0
  {
    hide Exec, Do, Left, Ready;
    OneMore(rate, Exec(rate, run), thread, key, now);
    ExecSnoc(rate, run, Fetch(thread, key, now));
    ExecSnoc(rate, run + [Fetch(thread, key, now)], Spend(thread, now));
    var log := Exec(rate, run).log;
    assert (log + [Answer(key, now, true)])[..|log|] == log;
  }

  lemma {:induction false} BurstIsAdmitted(rate: real, run: seq<Step>, thread: nat, key: string, now: real, n: nat)
    requires n as real <= Left(rate, Exec(rate, run), key) <= rate && Ready(Exec(rate, run), thread, key, now)
    ensures var s, s' := Exec(rate, run), Exec(rate, run + Burst(thread, key, now, n));
            && AdmittedWithin(s'.log, key, now, now) == AdmittedWithin(s.log, key, now, now) + n
            && Ready(s', thread, key, now) && Left(rate, s', key) == Left(rate, s, key) - n as real
  {
    hide Exec, Left, Ready, AdmittedWithin;
    if n == 0 {
      assert run + Burst(thread, key, now, n) == run;
    } else {
      BurstIsAdmitted(rate, run, thread, key, now, n - 1);
      OneMoreRun(rate, run + Burst(thread, key, now, n - 1), thread, key, now);
      assert run + Burst(thread, key, now, n)
          == run + Burst(thread, key, now, n - 1) + [Fetch(thread, key, now)] + [Spend(thread, now)];
    }
  }

  predicate AllAt(run: seq<Step>, now: real) {
    forall i :: 0 <= i < |run| ==> !run[i].Clean? && At(run[i]) == now
  }

  lemma {:induction false} BurstIsNow(thread: nat, key: string, now: real, n: nat)
    ensures AllAt(Burst(thread, key, now, n), now)
  {
    if n > 0 {
      BurstIsNow(thread, key, now, n - 1);
    }
  }

  lemma {:induction false} LogIsPast(rate: real, run: seq<Step>, key: string, now: real)
    requires NotAfter(run, now - 1.0)
    ensures AdmittedWithin(Exec(rate, run).log, key, now, now) == 0
  {
    if run != [] {
      hide Refilled, Spent;
      LogIsPast(rate, run[..|run| - 1], key, now);
      var log, log' := Exec(rate, run[..|run| - 1]).log, Exec(rate, run).log;
      if log' != log {
        assert log'[..|log|] == log;
      }
    }
  }

  /** The orphan is full when it is spent from, and its client has a fresh bucket besides. */
  lemma OrphanIsAdmitted(rate: real, run: seq<Step>, tick: real, thread: nat, now: real)
    requires 1.0 <= rate && InOrder(run) && OrphanFree(rate, run) && NotAfter(run, now - 1.0) && tick <= now
    requires var s := Exec(rate, run); thread in s.held && Idle(s, s.held[thread].key, tick)
    ensures var key := Exec(rate, run).held[thread].key;
            var s := Exec(rate, run + [Clean(tick)] + [Spend(thread, now)]);
            && AdmittedWithin(s.log, key, now, now) == 1
            && Ready(s, thread, key, now) && Left(rate, s, key) == rate
  {
    hide Exec, Gain, RateLimiting.Exec, Spent;
    var s := Exec(rate, run);
    EveryRun(rate, run);
    var key, b := s.held[thread].key, s.heap[s.held[thread].bucket];
    ExecSnoc(rate, run, Clean(tick));
    ExecSnoc(rate, run + [Clean(tick)], Spend(thread, now));
    RunsLink(rate, run, now - 1.0);
    GainInOneSecond(rate);
    GainGrows(1.0, now - b.last, rate);
    LogIsPast(rate, run, key, now);
    assert Do(rate, s, Clean(tick)).log == s.log;
    assert (s.log + [Answer(key, now, true)])[..|s.log|] == s.log;
  }

  lemma AllNow(run: seq<Step>, more: seq<Step>, now: real)
    requires InOrder(run) && NotAfter(run, now) && forall i :: 0 <= i < |more| ==> At(more[i]) == now
    ensures InOrder(run + more) && NotAfter(run + more, now)
  {
  }

  /** What tells the two limiters apart: the orphan and then a burst of as many requests as the rate. */
  function Telling(rate: real, thread: nat, key: string, now: real): seq<Step>
    requires rate >= 1.0
  {
    [Spend(thread, now)] + Burst(thread, key, now, rate.Floor)
  }

  lemma SweptAdmitsTooMany(rate: real, run: seq<Step>, tick: real, thread: nat, now: real)
    requires 1.0 <= rate && InOrder(run) && OrphanFree(rate, run) && NotAfter(run, now - 1.0) && tick <= now
    requires var s := Exec(rate, run); thread in s.held && Idle(s, s.held[thread].key, tick)
    ensures var key := Exec(rate, run).held[thread].key;
            var log := Exec(rate, run + [Clean(tick)] + Telling(rate, thread, key, now)).log;
            AdmittedWithin(log, key, now, now) == 1 + rate.Floor
  {
    hide *;
    var key := Exec(rate, run).held[thread].key;
    OrphanIsAdmitted(rate, run, tick, thread, now);
    var orphaned := run + [Clean(tick)] + [Spend(thread, now)];
    BurstIsAdmitted(rate, orphaned, thread, key, now, rate.Floor);
    assert run + [Clean(tick)] + Telling(rate, thread, key, now) == orphaned + Burst(thread, key, now, rate.Floor) by {
      TellingIs(rate, thread, key, now);
    }
  }

  lemma TellingIs(rate: real, thread: nat, key: string, now: real)
    requires rate >= 1.0
    ensures Telling(rate, thread, key, now) == [Spend(thread, now)] + Burst(thread, key, now, rate.Floor)
    ensures NoSweep(Telling(rate, thread, key, now))
    ensures forall i :: 0 <= i < |Telling(rate, thread, key, now)| ==> At(Telling(rate, thread, key, now)[i]) == now
  {
    BurstIsNow(thread, key, now, rate.Floor);
  }

  /** Without an orphaning sweep no client gets more than the burst at one moment. */
  lemma UnsweptKeepsBound(rate: real, run: seq<Step>, key: string, now: real)
    requires 1.0 <= rate && InOrder(run) && OrphanFree(rate, run) && NotAfter(run, now)
    ensures AdmittedWithin(Exec(rate, run).log, key, now, now) as real <= rate
  {
    hide *;
    AsIfAtomic(rate, run);
    AtomicIsTimed(run, now);
    RateBound(rate, Atomic(run), key, now, now);
    GainOfNothing(rate);
    assert now - now == 0.0;
  }

  lemma OrphanIsNoticed(rate: real, run: seq<Step>, tick: real)
    requires 1.0 <= rate && InOrder(run) && OrphanFree(rate, run) && Orphans(Exec(rate, run), tick)
    ensures exists more :: NoSweep(more) && InOrder(run + [Clean(tick)] + more)
                           && Exec(rate, run + [Clean(tick)] + more).log != Exec(rate, run + more).log
  {
    hide Exec, InOrder, OrphanFree, NotAfter, Telling, NoSweep, AdmittedWithin, Idle;
    var s := Exec(rate, run);
    var thread :| thread in s.held && Idle(s, s.held[thread].key, tick);
    var key := s.held[thread].key;
    var now := LastStep(run + [Clean(tick)]) + 1.0;
    NotAfterParts(run, tick, now - 1.0);
    var more := Telling(rate, thread, key, now);
    TellingIs(rate, thread, key, now);
    AllNow(run, more, now);
    AllNow(run + [Clean(tick)], more, now);
    SweptAdmitsTooMany(rate, run, tick, thread, now);
    StaysOrphanFree(rate, run, more);
    UnsweptKeepsBound(rate, run + more, key, now);
    assert Exec(rate, run + [Clean(tick)] + more).log != Exec(rate, run + more).log;
  }

  /** It can happen: a client fetches its first bucket and takes more than ten minutes to spend from it. */
  lemma OrphanCanHappen(rate: real)
    ensures var run := [Fetch(1, "a", 0.0)];
            && InOrder(run) && OrphanFree(rate, run)
            && forall tick :: Orphans(Exec(rate, run), tick) <==> tick > 600.0
  {
    var run := [Fetch(1, "a", 0.0)];
    assert [] + run == run;
    ExecSnoc(rate, [], run[0]);
    var s := Do(rate, EMPTY, run[0]);
    assert Exec(rate, []) == EMPTY && OrphanFree(rate, []);
    OrphanFreeSnoc(rate, [], run[0]);
    assert s.held[1] == Hold("a", 0);
    assert forall tick :: Idle(s, "a", tick) <==> tick > 600.0;
  }

  lemma NotAfterParts(run: seq<Step>, tick: real, clock: real)
    requires NotAfter(run + [Clean(tick)], clock)
    ensures NotAfter(run, clock) && tick <= clock && NotAfter(run, clock + 1.0) && NotAfter(run + [Clean(tick)], clock + 1.0)
    ensures InOrder(run) ==> InOrder(run + [Clean(tick)])
  {
    var whole := run + [Clean(tick)];
    assert whole[|run|] == Clean(tick);
    assert forall i :: 0 <= i < |run| ==> whole[i] == run[i];
  }

  /** As long as nothing has been orphaned, a sweep goes unnoticed by everything that may follow exactly
      when it orphans nothing: the two sections of a request are as good as one if and only if no sweep
      deletes a bucket between them. */
  lemma SweepNoticedIffOrphans(rate: real, run: seq<Step>, tick: real)
    requires 1.0 <= rate && InOrder(run) && OrphanFree(rate, run)
    ensures (forall more :: NoSweep(more) && InOrder(run + [Clean(tick)] + more) ==>
               Exec(rate, run + [Clean(tick)] + more).log == Exec(rate, run + more).log)
       <==> !Orphans(Exec(rate, run), tick)
  {
    hide *;
    if Orphans(Exec(rate, run), tick) {
      OrphanIsNoticed(rate, run, tick);
    } else {
      forall more | NoSweep(more) && InOrder(run + [Clean(tick)] + more)
        ensures Exec(rate, run + [Clean(tick)] + more).log == Exec(rate, run + more).log
      {
        CleanSweepUnnoticed(rate, run, tick, more);
      }
    }
  }
}
