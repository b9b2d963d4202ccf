/** The per-client token-bucket limiter and its sweeper (internal/middleware/middleware.go), with real
  numbers for tokens and for seconds.

  A run is a sequence of requests and sweeps, each request taken as one step.  The clock never runs
  backwards, but a sweep may still use an old tick. */
module RateLimiting {
  datatype Bucket = Bucket(tokens: real, last: real)

  type Buckets = map<string, Bucket>

  /** Seconds a bucket may be idle before a sweep deletes it. */
  const MAX_IDLE := 600.0

  datatype Action =
    | Request(key: string, created: real, now: real)   // the clock on creating a bucket, and on spending
    | Sweep(tick: real)

  datatype Answer = Answer(key: string, at: real, admitted: bool)

  datatype State = State(buckets: Buckets, log: seq<Answer>)

  const START := State(map[], [])

  // ---------------------------------------------------------------- one step

  function Gain(seconds: real, rate: real): real {
    seconds * rate
  }

  function Refilled(capacity: real, refill: real, b: Bucket, now: real): real {
    var tokens := b.tokens + Gain(now - b.last, refill);
    if tokens > capacity then capacity else tokens
  }

  function Spent(capacity: real, refill: real, b: Bucket, now: real): Bucket {
    var tokens := Refilled(capacity, refill, b, now);
    Bucket(if tokens < 1.0 then tokens else tokens - 1.0, now)
  }

  function BucketFor(rate: real, buckets: Buckets, key: string, created: real): Bucket {
    if key in buckets then buckets[key] else Bucket(rate, created)
  }

  function Swept(buckets: Buckets, tick: real): Buckets {
    map key | key in buckets && !(tick - buckets[key].last > MAX_IDLE) :: buckets[key]
  }

  predicate Admits(rate: real, buckets: Buckets, request: Action)
    requires request.Request?
  {
    Refilled(rate, rate, BucketFor(rate, buckets, request.key, request.created), request.now) >= 1.0
  }

  function Charged(rate: real, buckets: Buckets, request: Action): Buckets
    requires request.Request?
  {
    buckets[request.key := Spent(rate, rate, BucketFor(rate, buckets, request.key, request.created), request.now)]
  }

  function Do(rate: real, s: State, a: Action): State {
    match a
    case Request(key, created, now) =>
      State(Charged(rate, s.buckets, a),
            s.log + [Answer(key, now, Admits(rate, s.buckets, a))])
    case Sweep(tick) => s.(buckets := Swept(s.buckets, tick))
  }

  /** The state a run reaches from an empty limiter that allows `rate` requests a second. */
  function Exec(rate: real, run: seq<Action>): State {
    if run == [] then START else Do(rate, Exec(rate, run[..|run| - 1]), run[|run| - 1])
  }

  function Latest(a: Action): real {
    match a
    case Request(_, _, now) => now
    case Sweep(tick) => tick
  }

  /** Time does not run backwards between or within requests, and no tick is ahead of the clock. */
  predicate Timed(run: seq<Action>) {
    && (forall i :: 0 <= i < |run| && run[i].Request? ==> run[i].created <= run[i].now)
    && (forall i, j :: 0 <= i < j < |run| && run[j].Request? ==> Latest(run[i]) <= run[j].created)
  }

  predicate Until(run: seq<Action>, clock: real) {
    forall i :: 0 <= i < |run| ==> Latest(run[i]) <= clock
  }

  // ---------------------------------------------------------------- sweeping is invisible

  function Unswept(run: seq<Action>): seq<Action> {
    if run == [] then []
    else Unswept(run[..|run| - 1]) + if run[|run| - 1].Sweep? then [] else [run[|run| - 1]]
  }

  /** The swept limiter lacks only buckets that by `clock` have refilled. */
  ghost predicate Agree(rate: real, swept: Buckets, never: Buckets, clock: real) {
    && (forall k :: k in swept ==> k in never && swept[k] == never[k])
    && (forall k :: k in never ==>
          && 0.0 <= never[k].tokens <= rate
          && never[k].last <= clock
          && (k in swept || never[k].last + MAX_IDLE < clock))
  }

  lemma GainGrows(a: real, b: real, rate: real)
    requires a <= b && 0.0 <= rate
    ensures Gain(a, rate) <= Gain(b, rate)
  {
    assert (b - a) * rate >= 0.0;
    assert (b - a) * rate == b * rate - a * rate;
  }

  lemma GainAdds(a: real, b: real, rate: real)
    ensures Gain(a + b, rate) == Gain(a, rate) + Gain(b, rate)
  {
  }

  lemma GainIsPositive(b: Bucket, now: real, rate: real)
    requires 0.0 <= rate && b.last <= now
    ensures Gain(now - b.last, rate) >= 0.0
  {
    GainGrows(0.0, now - b.last, rate);
    assert 0.0 * rate == 0.0;
  }

  lemma GainInOneSecond(rate: real)
    ensures Gain(1.0, rate) == rate
  {
  }

  /** Deleting an idle bucket and making a new one comes to the same as keeping it: below a rate of one both
      refuse, and otherwise both are full and are left in the same state. */
  lemma IdleBucketIsFull(rate: real, b: Bucket, created: real, now: real)
    requires (1.0 <= rate ==> 0.0 <= b.tokens) && b.last + MAX_IDLE < created <= now
    ensures Refilled(rate, rate, b, now) >= 1.0 <==> Refilled(rate, rate, Bucket(rate, created), now) >= 1.0
    ensures 1.0 <= rate ==>
              && Refilled(rate, rate, b, now) == Refilled(rate, rate, Bucket(rate, created), now) == rate
              && Spent(rate, rate, b, now) == Spent(rate, rate, Bucket(rate, created), now) == Bucket(rate - 1.0, now)
  {
    hide Gain;
    if 1.0 <= rate {
      GainInOneSecond(rate);
      GainGrows(1.0, now - b.last, rate);
      GainIsPositive(Bucket(rate, created), now, rate);
    }
  }

  lemma RequestAgrees(rate: real, swept: State, never: State, a: Action)
    requires 1.0 <= rate && a.Request? && a.created <= a.now
    requires Agree(rate, swept.buckets, never.buckets, a.created) && swept.log == never.log
    ensures Agree(rate, Do(rate, swept, a).buckets, Do(rate, never, a).buckets, a.now)
    ensures Do(rate, swept, a).log == Do(rate, never, a).log
  {
    hide Gain;
    GainIsPositive(BucketFor(rate, never.buckets, a.key, a.created), a.now, rate);
    if a.key in never.buckets && a.key !in swept.buckets {
      IdleBucketIsFull(rate, never.buckets[a.key], a.created, a.now);
    }
  }

  lemma UnsweptSnoc(front: seq<Action>, a: Action)
    requires a.Request?
    ensures Unswept(front + [a]) == Unswept(front) + [a]
  {
    assert (front + [a])[..|front|] == front;
  }

  lemma ExecSnoc(rate: real, run: seq<Action>, a: Action)
    ensures Exec(rate, run + [a]) == Do(rate, Exec(rate, run), a)
  {
    assert (run + [a])[..|run|] == run;
  }

  lemma SweepAgrees(rate: real, swept: State, never: State, tick: real, clock: real)
    requires Agree(rate, swept.buckets, never.buckets, clock) && tick <= clock
    ensures Agree(rate, Do(rate, swept, Sweep(tick)).buckets, never.buckets, clock)
  {
  }

  lemma {:induction false} RunsAgree(rate: real, run: seq<Action>, clock: real)
    requires 1.0 <= rate && Timed(run) && Until(run, clock)
    ensures Agree(rate, Exec(rate, run).buckets, Exec(rate, Unswept(run)).buckets, clock)
    ensures Exec(rate, run).log == Exec(rate, Unswept(run)).log
  {
    if run != [] {
      var front, a := run[..|run| - 1], run[|run| - 1];
      assert run == front + [a];
      hide Do, Agree;
      if a.Request? {
        hide Exec, Unswept;
        ExecSnoc(rate, front, a);
        RunsAgree(rate, front, a.created);
        UnsweptSnoc(front, a);
        ExecSnoc(rate, Unswept(front), a);
        RequestAgrees(rate, Exec(rate, front), Exec(rate, Unswept(front)), a);
        AgreeLater(rate, Exec(rate, run).buckets, Exec(rate, Unswept(run)).buckets, a.now, clock);
      } else {
        RunsAgree(rate, front, clock);
        assert a == Sweep(a.tick) && Unswept(run) == Unswept(front);
        SweepAgrees(rate, Exec(rate, front), Exec(rate, Unswept(front)), a.tick, clock);
        SweepAnswersNothing(rate, Exec(rate, front), a.tick);
      }
    }
  }

  lemma SweepAnswersNothing(rate: real, s: State, tick: real)
    ensures Do(rate, s, Sweep(tick)).log == s.log
  {
  }

  lemma AgreeLater(rate: real, swept: Buckets, never: Buckets, clock: real, later: real)
    requires Agree(rate, swept, never, clock) && clock <= later
    ensures Agree(rate, swept, never, later)
  {
  }

  /** With a rate below one no bucket ever holds a token. */
  lemma {:induction false} NothingBelowOne(rate: real, run: seq<Action>)
    requires rate < 1.0
    ensures forall i :: 0 <= i < |Exec(rate, run).log| ==> !Exec(rate, run).log[i].admitted
  {
    if run != [] {
      NothingBelowOne(rate, run[..|run| - 1]);
    }
  }

  function Requests(run: seq<Action>): seq<(string, real)> {
    if run == [] then []
    else Requests(run[..|run| - 1])
         + if run[|run| - 1].Sweep? then [] else [(run[|run| - 1].key, run[|run| - 1].now)]
  }

  lemma {:induction false} LogAnswersRequests(rate: real, run: seq<Action>)
    ensures var log := Exec(rate, run).log;
            |log| == |Requests(run)|
            && forall i :: 0 <= i < |log| ==> (log[i].key, log[i].at) == Requests(run)[i]
  {
    if run != [] {
      LogAnswersRequests(rate, run[..|run| - 1]);
    }
  }

  lemma {:induction false} UnsweptRequests(run: seq<Action>)
    ensures Requests(Unswept(run)) == Requests(run)
  {
    if run != [] {
      var front, a := run[..|run| - 1], run[|run| - 1];
      UnsweptRequests(front);
      if a.Request? {
        assert (Unswept(front) + [a])[..|Unswept(front)|] == Unswept(front);
      } else {
        assert Unswept(run) == Unswept(front);
      }
    }
  }

  /** Whatever the rate, the limiter that sweeps answers every request of every run as one that never
      deletes a bucket. */
  lemma SweepingIsInvisible(rate: real, run: seq<Action>)
    requires Timed(run)
    ensures Exec(rate, run).log == Exec(rate, Unswept(run)).log
  {
    if rate < 1.0 {
      hide Exec;
      LogAnswersRequests(rate, run);
      LogAnswersRequests(rate, Unswept(run));
      UnsweptRequests(run);
      NothingBelowOne(rate, run);
      NothingBelowOne(rate, Unswept(run));
    } else {
      RunsAgree(rate, run, LastTime(run));
    }
  }

  /** A time no action of the run is later than. */
  function LastTime(run: seq<Action>): (clock: real)
    ensures Until(run, clock)
  {
    if run == [] then 0.0 else
    var before, last := LastTime(run[..|run| - 1]), Latest(run[|run| - 1]);
    if before < last then last else before
  }

  // ---------------------------------------------------------------- the exact rate

  /** How many requests of a client were admitted from the given moment on. */
  function Admitted(log: seq<Answer>, key: string, from: real): nat {
    if log == [] then 0 else
    var last := log[|log| - 1];
    Admitted(log[..|log| - 1], key, from) + if last.admitted && last.key == key && from <= last.at then 1 else 0
  }

  /** No window starting at `from` and ending now has had more than its due, and the bucket holds no more
      than every window leaves and exactly what some window leaves. */
  ghost predicate Exact(rate: real, log: seq<Answer>, key: string, tokens: real, now: real) {
    && (forall from :: from <= now ==> Admitted(log, key, from) as real + tokens <= rate + Gain(now - from, rate))
    && (exists from :: from <= now && Admitted(log, key, from) as real + tokens == rate + Gain(now - from, rate))
    && (forall from :: now < from ==> Admitted(log, key, from) == 0)
  }

  lemma {:induction false} AdmittedNothing(log: seq<Answer>, key: string, from: real)
    requires forall i :: 0 <= i < |log| && log[i].key == key ==> log[i].at < from
    ensures Admitted(log, key, from) == 0
  {
    if log != [] {
      AdmittedNothing(log[..|log| - 1], key, from);
    }
  }

  /** Refilling keeps exactness as time goes by. */
  lemma RefillIsExact(rate: real, log: seq<Answer>, key: string, b: Bucket, now: real)
    requires 0.0 <= rate && b.last <= now && Exact(rate, log, key, b.tokens, b.last)
    ensures Exact(rate, log, key, Refilled(rate, rate, b, now), now)
  {
    hide Admitted, Gain;
    var tokens := Refilled(rate, rate, b, now);
    forall from | from <= now
      ensures Admitted(log, key, from) as real + tokens <= rate + Gain(now - from, rate)
    {
      if from <= b.last {
        GainAdds(now - b.last, b.last - from, rate);
      } else {
        GainIsPositive(Bucket(0.0, from), now, rate);
      }
    }
    if tokens == rate {
      GainIsPositive(b, now, rate);
      GainOfNothing(rate);
      assert Admitted(log, key, now) as real + tokens <= rate + Gain(now - now, rate);
    } else {
      var from :| from <= b.last && Admitted(log, key, from) as real + b.tokens == rate + Gain(b.last - from, rate);
      GainAdds(now - b.last, b.last - from, rate);
      assert Admitted(log, key, from) as real + tokens == rate + Gain(now - from, rate);
    }
  }

  lemma GainOfNothing(rate: real)
    ensures Gain(0.0, rate) == 0.0
  {
  }

  lemma AnswerIsExact(rate: real, log: seq<Answer>, key: string, tokens: real, answer: Answer)
    requires Exact(rate, log, key, tokens, answer.at)
    ensures Exact(rate, log + [answer], key,
                  if answer.key == key && answer.admitted then tokens - 1.0 else tokens, answer.at)
  {
    hide Gain;
    var log' := log + [answer];
    assert log'[..|log'| - 1] == log;
    forall from
      ensures Admitted(log', key, from)
           == Admitted(log, key, from) + if answer.admitted && answer.key == key && from <= answer.at then 1 else 0
    {
    }
    hide Admitted, Gain;
    var from :| from <= answer.at && Admitted(log, key, from) as real + tokens == rate + Gain(answer.at - from, rate);
    assert Admitted(log', key, from) >= Admitted(log, key, from);
  }

  /** Exactness of one client's bucket; a client without a bucket has had no answers. */
  ghost predicate ExactFor(rate: real, s: State, key: string) {
    if key in s.buckets then Exact(rate, s.log, key, s.buckets[key].tokens, s.buckets[key].last)
    else forall i :: 0 <= i < |s.log| ==> s.log[i].key != key
  }

  lemma FreshIsExact(rate: real, log: seq<Answer>, key: string, now: real)
    requires 0.0 <= rate && forall i :: 0 <= i < |log| ==> log[i].key != key
    ensures Exact(rate, log, key, rate, now)
  {
    hide Gain;
    forall from
      ensures Admitted(log, key, from) == 0
    {
      AdmittedNothing(log, key, from);
    }
    hide Admitted, Gain;
    forall from | from <= now
      ensures Admitted(log, key, from) as real + rate <= rate + Gain(now - from, rate)
    {
      GainIsPositive(Bucket(0.0, from), now, rate);
    }
    GainOfNothing(rate);
    assert Admitted(log, key, now) as real + rate == rate + Gain(now - now, rate);
  }

  lemma RefilledIsExact(rate: real, s: State, a: Action)
    requires 0.0 <= rate && a.Request? && a.created <= a.now && ExactFor(rate, s, a.key)
    requires a.key in s.buckets ==> s.buckets[a.key].last <= a.created
    ensures Exact(rate, s.log, a.key, Refilled(rate, rate, BucketFor(rate, s.buckets, a.key, a.created), a.now), a.now)
  {
    hide Exact, Refilled;
    if a.key !in s.buckets {
      FreshIsExact(rate, s.log, a.key, a.created);
    }
    RefillIsExact(rate, s.log, a.key, BucketFor(rate, s.buckets, a.key, a.created), a.now);
  }

  lemma OthersLeaveExact(rate: real, log: seq<Answer>, key: string, tokens: real, now: real, answer: Answer)
    requires Exact(rate, log, key, tokens, now) && answer.key != key
    ensures Exact(rate, log + [answer], key, tokens, now)
  {
    hide Gain;
    var log' := log + [answer];
    assert log'[..|log'| - 1] == log;
    forall from
      ensures Admitted(log', key, from) == Admitted(log, key, from)
    {
    }
    hide Admitted, Gain;
    var from :| from <= now && Admitted(log, key, from) as real + tokens == rate + Gain(now - from, rate);
    assert Admitted(log', key, from) == Admitted(log, key, from);
  }

  lemma StepIsExact(rate: real, s: State, a: Action, key: string)
    requires 0.0 <= rate && a.Request? && a.created <= a.now && ExactFor(rate, s, key)
    requires key in s.buckets ==> s.buckets[key].last <= a.created
    ensures ExactFor(rate, Do(rate, s, a), key)
  {
    hide Exact, Refilled;
    var answer := Answer(a.key, a.now, Admits(rate, s.buckets, a));
    if a.key == key {
      RefilledIsExact(rate, s, a);
      AnswerIsExact(rate, s.log, key, Refilled(rate, rate, BucketFor(rate, s.buckets, key, a.created), a.now), answer);
    } else if key in s.buckets {
      OthersLeaveExact(rate, s.log, key, s.buckets[key].tokens, s.buckets[key].last, answer);
    }
  }

  lemma {:induction false} RunIsExact(rate: real, run: seq<Action>, key: string)
    requires 1.0 <= rate && Timed(run)
    ensures ExactFor(rate, Exec(rate, Unswept(run)), key)
  {
    if run != [] {
      var front, a := run[..|run| - 1], run[|run| - 1];
      RunIsExact(rate, front, key);
      if a.Request? {
        assert run == front + [a];
        UnsweptSnoc(front, a);
        RunsAgree(rate, front, a.created);
        ExecSnoc(rate, Unswept(front), a);
        hide Do, Exec, ExactFor;
        StepIsExact(rate, Exec(rate, Unswept(front)), a, key);
      } else {
        assert Unswept(run) == Unswept(front);
      }
    }
  }

  lemma SameDecision(rate: real, run: seq<Action>, request: Action)
    requires Timed(run + [request]) && request.Request?
    ensures Admits(rate, Exec(rate, run).buckets, request) == Admits(rate, Exec(rate, Unswept(run)).buckets, request)
    ensures Exec(rate, run).log == Exec(rate, Unswept(run)).log
  {
    hide Admits, Unswept, Exec, Timed;
    PrefixIsTimed(run, request);
    SweepingIsInvisible(rate, run);
    SweepingIsInvisible(rate, run + [request]);
    UnsweptSnoc(run, request);
    ExecSnoc(rate, run, request);
    ExecSnoc(rate, Unswept(run), request);
    var log := Exec(rate, run).log;
    assert Exec(rate, run + [request]).log[|log|] == Exec(rate, Unswept(run) + [request]).log[|log|];
  }

  /** A request is admitted exactly when no window ending with it would then have seen more than the burst
      plus the rate times its length. */
  lemma AdmitsExactly(rate: real, run: seq<Action>, request: Action)
    requires Timed(run + [request]) && request.Request?
    ensures Admits(rate, Exec(rate, run).buckets, request)
       <==> forall from :: from <= request.now ==>
              (Admitted(Exec(rate, run).log, request.key, from) + 1) as real <= rate + Gain(request.now - from, rate)
  {
    if rate < 1.0 {
      hide *;
      RefusedBelowOne(rate, Exec(rate, run), request);
    } else {
      hide *;
      PrefixIsTimed(run, request);
      SameDecision(rate, run, request);
      RunsAgree(rate, run, request.created);
      RunIsExact(rate, run, request.key);
      ExactAnswer(rate, Exec(rate, Unswept(run)), request, Exec(rate, run).buckets);
    }
  }

  lemma RefusedBelowOne(rate: real, s: State, request: Action)
    requires rate < 1.0 && request.Request?
    ensures !Admits(rate, s.buckets, request)
    ensures (Admitted(s.log, request.key, request.now) + 1) as real > rate + Gain(request.now - request.now, rate)
  {
    hide Admitted;
    GainOfNothing(rate);
  }

  lemma ExactAnswer(rate: real, s: State, request: Action, swept: Buckets)
    requires 1.0 <= rate && request.Request? && request.created <= request.now && ExactFor(rate, s, request.key)
    requires Agree(rate, swept, s.buckets, request.created)
    ensures Admits(rate, s.buckets, request)
       <==> forall from :: from <= request.now ==>
              (Admitted(s.log, request.key, from) + 1) as real <= rate + Gain(request.now - from, rate)
  {
    hide Admitted, Gain, Refilled, ExactFor;
    RefilledIsExact(rate, s, request);
    var tokens, now := Refilled(rate, rate, BucketFor(rate, s.buckets, request.key, request.created), request.now), request.now;
    var tight :| tight <= now && Admitted(s.log, request.key, tight) as real + tokens == rate + Gain(now - tight, rate);
    if tokens < 1.0 {
      assert (Admitted(s.log, request.key, tight) + 1) as real > rate + Gain(now - tight, rate);
    } else {
      forall from | from <= now
        ensures (Admitted(s.log, request.key, from) + 1) as real <= rate + Gain(now - from, rate)
      {
        assert Admitted(s.log, request.key, from) as real + tokens <= rate + Gain(now - from, rate);
      }
    }
  }

  lemma PrefixIsTimed(run: seq<Action>, request: Action)
    requires Timed(run + [request]) && request.Request?
    ensures Timed(run) && Until(run, request.created) && request.created <= request.now
  {
    var whole := run + [request];
    assert whole[|run|] == request;
    forall i | 0 <= i < |run|
      ensures run[i] == whole[i]
    {
    }
  }

  function AdmittedWithin(log: seq<Answer>, key: string, from: real, to: real): nat {
    if log == [] then 0 else
    var last := log[|log| - 1];
    AdmittedWithin(log[..|log| - 1], key, from, to)
    + if last.admitted && last.key == key && from <= last.at <= to then 1 else 0
  }

  lemma {:induction false} WithinIsLess(log: seq<Answer>, key: string, from: real, to: real)
    ensures AdmittedWithin(log, key, from, to) <= Admitted(log, key, from)
    ensures (forall i :: 0 <= i < |log| ==> !log[i].admitted) ==> AdmittedWithin(log, key, from, to) == 0
  {
    if log != [] {
      WithinIsLess(log[..|log| - 1], key, from, to);
    }
  }

  lemma BoundStep(rate: real, run: seq<Action>, request: Action, from: real, to: real)
    requires 1.0 <= rate && Timed(run + [request]) && request.Request? && from <= request.now <= to
    requires Admits(rate, Exec(rate, run).buckets, request)
    ensures (AdmittedWithin(Exec(rate, run).log, request.key, from, to) + 1) as real <= rate + Gain(to - from, rate)
  {
    hide *;
    var log := Exec(rate, run).log;
    AdmitsExactly(rate, run, request);
    WithinIsLess(log, request.key, from, to);
    assert (Admitted(log, request.key, from) + 1) as real <= rate + Gain(request.now - from, rate);
    GainGrows(request.now - from, to - from, rate);
  }

  lemma {:induction false} RateBoundFrom(rate: real, run: seq<Action>, key: string, from: real, to: real)
    requires Timed(run) && from <= to && 1.0 <= rate
    ensures AdmittedWithin(Exec(rate, run).log, key, from, to) as real <= rate + Gain(to - from, rate)
  {
    hide Admitted, Gain, Admits, Charged;
    if run == [] {
      GainIsPositive(Bucket(0.0, from), to, rate);
    } else {
      var front, a := run[..|run| - 1], run[|run| - 1];
      RateBoundFrom(rate, front, key, from, to);
      assert run == front + [a];
      var log, log' := Exec(rate, front).log, Exec(rate, run).log;
      if a.Request? {
        assert log'[..|log'| - 1] == log;
        hide Exec, Timed;
        if from <= a.now <= to && a.key == key && Admits(rate, Exec(rate, front).buckets, a) {
          BoundStep(rate, front, a, from, to);
        }
      }
    }
  }

  /** In every window of every run a client is admitted at most the burst plus the rate times the window's
      length, and never when the rate is below one. */
  lemma RateBound(rate: real, run: seq<Action>, key: string, from: real, to: real)
    requires Timed(run) && from <= to
    ensures AdmittedWithin(Exec(rate, run).log, key, from, to) as real
         <= if rate < 1.0 then 0.0 else rate + Gain(to - from, rate)
  {
    hide *;
    if rate < 1.0 {
      NothingBelowOne(rate, run);
      WithinIsLess(Exec(rate, run).log, key, from, to);
    } else {
      RateBoundFrom(rate, run, key, from, to);
    }
  }

  // ---------------------------------------------------------------- clients do not interfere

  function RequestsOf(run: seq<Action>, key: string): seq<Action> {
    if run == [] then [] else
    var a := run[|run| - 1];
    RequestsOf(run[..|run| - 1], key) + if a.Request? && a.key == key then [a] else []
  }

  function AnswersTo(log: seq<Answer>, key: string): seq<Answer> {
    if log == [] then []
    else AnswersTo(log[..|log| - 1], key) + if log[|log| - 1].key == key then [log[|log| - 1]] else []
  }

  lemma {:induction false} OnlyOwnRequestsCount(rate: real, run: seq<Action>, key: string)
    ensures OwnPart(Exec(rate, Unswept(run)), Exec(rate, RequestsOf(run, key)), key)
  {
    if run != [] {
      var front, a := run[..|run| - 1], run[|run| - 1];
      OnlyOwnRequestsCount(rate, front, key);
      if a.Request? {
        hide Exec, Do;
        var s, own := Exec(rate, Unswept(front)), Exec(rate, RequestsOf(front, key));
        assert run == front + [a];
        UnsweptSnoc(front, a);
        ExecSnoc(rate, Unswept(front), a);
        OwnStep(rate, s, own, a, key);
        if a.key == key {
          ExecSnoc(rate, RequestsOf(front, key), a);
        } else {
          assert RequestsOf(run, key) == RequestsOf(front, key);
        }
      } else {
        assert Unswept(run) == Unswept(front);
        assert RequestsOf(run, key) == RequestsOf(front, key);
      }
    }
  }

  /** `own` is what the state holds of one client. */
  predicate OwnPart(s: State, own: State, key: string) {
    && AnswersTo(s.log, key) == own.log
    && (key in s.buckets <==> key in own.buckets)
    && (key in s.buckets ==> s.buckets[key] == own.buckets[key])
  }

  lemma OwnStep(rate: real, s: State, own: State, a: Action, key: string)
    requires a.Request? && OwnPart(s, own, key)
    ensures OwnPart(Do(rate, s, a), if a.key == key then Do(rate, own, a) else own, key)
  {
    assert Do(rate, s, a).log[..|s.log|] == s.log;
  }

  /** A client's answers depend on that client's requests alone: other clients' requests may come, go or
      move, and so may sweeps. */
  lemma ClientsDoNotInterfere(rate: real, run1: seq<Action>, run2: seq<Action>, key: string)
    requires Timed(run1) && Timed(run2) && RequestsOf(run1, key) == RequestsOf(run2, key)
    ensures AnswersTo(Exec(rate, run1).log, key) == AnswersTo(Exec(rate, run2).log, key)
  {
    hide Exec, Unswept, RequestsOf, AnswersTo;
    SweepingIsInvisible(rate, run1);
    SweepingIsInvisible(rate, run2);
    OnlyOwnRequestsCount(rate, run1, key);
    OnlyOwnRequestsCount(rate, run2, key);
  }
}
