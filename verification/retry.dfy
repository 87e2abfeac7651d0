/** Retrying service calls (c7n/utils.py: get_retry, backoff_delays; c7n/tags.py:
    retry_skip_bad_ids, universal_retry). A service is a function of the call's number, so a
    statement about every such function is about every sequence of answers. */
module Retry {
  import opened Wrappers

  // ----- Backoff

  function Pow(b: real, n: nat): real {
    if n == 0 then 1.0 else b * Pow(b, n - 1)
  }

  function Max(a: real, b: real): real {
    if a < b then b else a
  }

  lemma Scale(a: real, b: real, c: real)
    requires a <= b && 0.0 <= c
    ensures a * c <= b * c
  {}

  lemma ScaleStrictly(a: real, b: real, c: real)
    requires a < b && 0.0 < c
    ensures a * c < b * c
  {}

  lemma {:induction false} PowGrows(b: real, c: real, n: nat)
    requires 1.0 <= b <= c
    ensures 1.0 <= Pow(b, n) <= Pow(c, n)
  {
    if n > 0 {
      PowGrows(b, c, n - 1);
      var x, y := Pow(b, n - 1), Pow(c, n - 1);
      Scale(1.0, b, x);
      Scale(x, y, b);
      Scale(b, c, y);
      assert Pow(b, n) == b * x && Pow(c, n) == c * y;
    }
  }

  /** The k-th delay before jitter. */
  function Delay(start: real, k: nat): real {
    if k == 0 then start else 2.0 * Delay(start, k - 1)
  }

  lemma {:induction false} DelayIsGeometric(start: real, k: nat)
    ensures Delay(start, k) == start * Pow(2.0, k)
  {
    if k > 0 {
      DelayIsGeometric(start, k - 1);
      Doubled(start, Pow(2.0, k - 1));
    }
  }

  lemma Doubled(a: real, b: real)
    ensures a * (2.0 * b) == 2.0 * (a * b)
  {}

  lemma {:induction false} DelayMonotone(start: real, m: nat, n: nat)
    requires start >= 0.0 && m <= n
    ensures 0.0 <= start <= Delay(start, m) <= Delay(start, n)
    decreases n
  {
    if m < n {
      DelayMonotone(start, m, n - 1);
    } else if m > 0 {
      DelayMonotone(start, m - 1, n - 1);
    }
  }

  lemma {:induction false} DelayBelowPow(start: real, m: real, n: nat)
    requires 0.0 <= start <= m && 2.0 <= m && n >= 1
    ensures Delay(start, n - 1) <= Pow(m, n)
  {
    if n > 1 {
      DelayBelowPow(start, m, n - 1);
      PowGrows(m, m, n - 1);
      Scale(2.0, m, Pow(m, n - 1));
    } else {
      assert Pow(m, 0) == 1.0 && Pow(m, 1) == m * Pow(m, 0);
    }
  }

  /** The ceiling get_retry derives from its attempts leaves room for a delay per attempt. */
  lemma DelayPerAttempt(minDelay: real, n: nat, k: nat)
    requires minDelay >= 0.0 && k < n
    ensures Delay(minDelay, k) <= Pow(Max(minDelay, 2.0), n)
  {
    DelayMonotone(minDelay, k, n - 1);
    DelayBelowPow(minDelay, Max(minDelay, 2.0), n);
  }

  /** The sum of the first n delays before jitter. */
  function Total(start: real, n: nat): real {
    if n == 0 then 0.0 else Total(start, n - 1) + Delay(start, n - 1)
  }

  lemma {:induction false} TotalIs(start: real, n: nat)
    ensures Total(start, n) == Delay(start, n) - start
    ensures Total(start, n) == start * (Pow(2.0, n) - 1.0)
  {
    DelayIsGeometric(start, n);
    if n > 0 {
      TotalIs(start, n - 1);
    }
  }

  lemma {:induction false} TotalMonotone(start: real, m: nat, n: nat)
    requires start >= 0.0 && m <= n
    ensures Total(start, m) <= Total(start, n)
    decreases n
  {
    if m < n {
      TotalMonotone(start, m, n - 1);
      DelayMonotone(start, 0, n - 1);
    }
  }

  /** backoff_delays with jitter; a share of up to a fifth is taken off each delay. */
  class BackoffDelays {
    var cur: real
    const stop: real
    const factor: real

    constructor (start: real, stop: real, factor: real)
      ensures cur == start && this.stop == stop && this.factor == factor
    {
      cur := start;
      this.stop := stop;
      this.factor := factor;
    }

    method Next(random: real) returns (delay: Option<real>)
      requires 0.0 <= random < 1.0 && 0.0 <= cur
      modifies this
      ensures delay.None? <==> old(cur) > stop
      ensures delay.None? ==> cur == old(cur)
      ensures delay.Some? ==> cur == old(cur) * factor
      ensures delay.Some? ==> 4.0 * old(cur) <= 5.0 * delay.value <= 5.0 * old(cur)
      ensures delay.Some? && old(cur) > 0.0 ==> 4.0 * old(cur) < 5.0 * delay.value
    {
      if cur <= stop {
        assert 0.0 <= cur * random <= cur;
        assert cur > 0.0 ==> cur * random < cur;
        delay := Some(cur - cur * random / 5.0);
        cur := cur * factor;
      } else {
        delay := None;
      }
    }
  }

  ghost predicate IsRandom(random: nat -> real) {
    forall i :: 0.0 <= random(i) < 1.0
  }

  // ----- get_retry

  datatype Answer<T> = Returned(value: T) | Failed(code: string)

  datatype Result<T> = Value(value: T) | Nothing | Raised(code: string) | FellOff

  /** Whether an answer makes get_retry call again, if it has attempts left. */
  predicate Retryable<T>(a: Answer<T>, retryCodes: seq<string>, ignoreCodes: seq<string>) {
    a.Failed? && a.code !in ignoreCodes && a.code in retryCodes
  }

  /** With attempts to count, the delays outlast them; without, they end at one second. */
  predicate MayCall(maxAttempts: nat, minDelay: real, k: nat) {
    if maxAttempts >= 1 then k < maxAttempts else Delay(minDelay, k) <= 1.0
  }

  lemma {:induction false} DelayOutgrows(start: real, bound: real) returns (n: nat)
    requires start > 0.0
    ensures Delay(start, n) > bound
  {
    var q := bound / start;
    n := if q < 0.0 then 0 else q.Floor;
    DelayLinear(start, n);
    ScaleStrictly(q, n as real + 1.0, start);
    assert q * start == bound;
  }

  lemma {:induction false} DelayLinear(start: real, n: nat)
    requires start > 0.0
    ensures Delay(start, n) >= start * (n as real + 1.0)
  {
    if n > 0 {
      DelayLinear(start, n - 1);
      Scale(1.0, n as real, start);
      assert start * (n as real + 1.0) == start * (n as real) + start;
    }
  }

  lemma LaterDelaysAreOver(minDelay: real, calls: nat, k: nat)
    requires minDelay >= 0.0 && Delay(minDelay, calls) > 1.0 && MayCall(0, minDelay, k)
    ensures k < calls
  {
    if calls <= k {
      DelayMonotone(minDelay, calls, k);
    }
  }

  /** How many times it slept. */
  function Sleeps<T>(result: Result<T>, calls: nat): nat
    requires calls >= 1 || result.FellOff?
  {
    if result.FellOff? then calls else calls - 1
  }

  /** The first answer that is not retryable ends the calls, or else the last attempt does:
      then its failure is raised. The sleeps add up to at most the delays without jitter, and
      to at least four fifths of them. The loop falls off its end exactly when it has no attempts
      to count and everything it may call fails retryably; with no attempts and no delay it need
      not end. */
  method GetRetry<T>(answer: nat -> Answer<T>, retryCodes: seq<string>, ignoreCodes: seq<string>,
                     maxAttempts: nat, minDelay: real, random: nat -> real)
    returns (result: Result<T>, calls: nat, slept: real)
    requires minDelay >= 0.0 && IsRandom(random) && (maxAttempts >= 1 || minDelay > 0.0)
    ensures forall k | 0 <= k < calls :: MayCall(maxAttempts, minDelay, k)
    ensures result.FellOff? <==> maxAttempts == 0 && forall k: nat ::
              MayCall(0, minDelay, k) ==> Retryable(answer(k), retryCodes, ignoreCodes)
    ensures result.FellOff? ==> !MayCall(0, minDelay, calls)
    ensures calls >= 1 || result.FellOff?
    ensures maxAttempts >= 1 ==> calls <= maxAttempts
    ensures forall i | 0 <= i < Sleeps(result, calls) ::
              answer(i).Failed? && answer(i).code in retryCodes && answer(i).code !in ignoreCodes
    ensures !result.FellOff? ==>
              match answer(calls - 1)
              case Returned(v) => result == Value(v)
              case Failed(code) =>
                if code in ignoreCodes then result == Nothing
                else result == Raised(code) && (code in retryCodes ==> calls == maxAttempts)
    ensures 4.0 * Total(minDelay, Sleeps(result, calls)) <= 5.0 * slept
    ensures slept <= Total(minDelay, Sleeps(result, calls))
  {
    var maxDelay := Pow(Max(minDelay, 2.0), maxAttempts);
    var delays := new BackoffDelays(minDelay, maxDelay, 2.0);
    ghost var limit := maxAttempts;
    if maxAttempts == 0 {
      limit := DelayOutgrows(minDelay, 1.0);
    }
    calls, slept := 0, 0.0;
    while true
      invariant calls <= limit && (maxAttempts >= 1 ==> calls < limit)
      invariant forall k | 0 <= k < calls :: MayCall(maxAttempts, minDelay, k)
      invariant fresh(delays) && delays.stop == maxDelay && delays.factor == 2.0
      invariant delays.cur == Delay(minDelay, calls) >= minDelay
      invariant forall i | 0 <= i < calls :: Retryable(answer(i), retryCodes, ignoreCodes)
      invariant 4.0 * Total(minDelay, calls) <= 5.0 * slept <= 5.0 * Total(minDelay, calls)
      decreases limit - calls
    {
      if maxAttempts >= 1 {
        DelayPerAttempt(minDelay, maxAttempts, calls);
      }
      var delay := delays.Next(random(calls));
      if delay.None? {
        forall k: nat | MayCall(0, minDelay, k)
          ensures k < calls
        {
          LaterDelaysAreOver(minDelay, calls, k);
        }
        result := FellOff;
        return;
      }
      DelayMonotone(minDelay, 0, calls + 1);
      calls := calls + 1;
      match answer(calls - 1) {
        case Returned(v) =>
          result := Value(v);
          return;
        case Failed(code) =>
          if code in ignoreCodes {
            result := Nothing;
            return;
          } else if code !in retryCodes || calls == maxAttempts {
            result := Raised(code);
            return;
          }
      }
      slept := slept + delay.value;
    }
  }

  /** The sleeps of a retry with n attempts are at most min_delay times (2 to the n - 1, less 1). */
  lemma SleepIsBounded(minDelay: real, n: nat, sleeps: nat, slept: real)
    requires minDelay >= 0.0 && sleeps < n && slept <= Total(minDelay, sleeps)
    ensures slept <= minDelay * (Pow(2.0, n - 1) - 1.0)
  {
    TotalMonotone(minDelay, sleeps, n - 1);
    TotalIs(minDelay, n - 1);
  }

  // ----- retry_skip_bad_ids

  type Id = string

  /** The answer to one batch call: done, or failed with the ids its message names. */
  datatype BatchAnswer = Done | Rejected(named: seq<Id>)

  datatype Outcome = Sent(ids: seq<Id>) | NobodyLeft | Error

  function Without(ids: seq<Id>, bad: set<Id>): seq<Id> {
    if ids == [] then []
    else (if ids[0] in bad then [] else [ids[0]]) + Without(ids[1..], bad)
  }

  lemma {:induction false} WithoutMeans(ids: seq<Id>, bad: set<Id>)
    ensures forall id :: id in Without(ids, bad) <==> id in ids && id !in bad
    ensures |Without(ids, bad)| <= |ids|
    ensures (exists id | id in ids :: id in bad) ==> |Without(ids, bad)| < |ids|
    ensures (forall id | id in ids :: id !in bad) ==> Without(ids, bad) == ids
  {
    if ids != [] {
      WithoutMeans(ids[1..], bad);
      assert ids == [ids[0]] + ids[1..];
    }
  }

  lemma {:induction false} WithoutTwice(ids: seq<Id>, a: set<Id>, b: set<Id>)
    ensures Without(Without(ids, a), b) == Without(ids, a + b)
  {
    if ids != [] {
      WithoutTwice(ids[1..], a, b);
      var rest := Without(ids[1..], a);
      if ids[0] in a {
        assert Without(ids, a) == rest;
      } else {
        assert Without(ids, a) == [ids[0]] + rest;
        assert ([ids[0]] + rest)[1..] == rest;
      }
    }
  }

  /** One call: the ids sent, and the answer. */
  datatype Batch = Batch(sent: seq<Id>, answer: BatchAnswer) {
    /** The ids it sent that its failure names. */
    function Named(): set<Id> {
      if answer.Rejected? then set id | id in answer.named && id in sent else {}
    }
  }

  /** Every call sends fewer ids than the one before; there is never a call with none. */
  ghost predicate Shrinking(calls: seq<Batch>) {
    && (forall i | 0 <= i < |calls| :: calls[i].sent != [])
    && (forall i, j | 0 <= i < j < |calls| :: |calls[j].sent| < |calls[i].sent|)
  }

  ghost predicate NamedBad(calls: seq<Batch>, id: Id) {
    exists i | 0 <= i < |calls| :: id in calls[i].Named()
  }

  ghost predicate AnsweredBy(answer: (nat, seq<Id>) -> BatchAnswer, calls: seq<Batch>) {
    forall i | 0 <= i < |calls| :: calls[i].answer == answer(i, calls[i].sent)
  }

  ghost predicate AllRejected(calls: seq<Batch>) {
    forall i | 0 <= i < |calls| :: calls[i].answer.Rejected?
  }

  /** After some calls, all rejected: what is left is what none of them named. */
  ghost predicate Skipping(ids: seq<Id>, calls: seq<Batch>, rest: seq<Id>, bad: set<Id>) {
    && |calls| + |rest| <= |ids| && rest == Without(ids, bad)
    && Shrinking(calls) && AllRejected(calls)
    && (forall i | 0 <= i < |calls| :: |rest| < |calls[i].sent|)
    && (forall id :: id in bad <==> NamedBad(calls, id))
  }

  lemma NamedMore(calls: seq<Batch>, c: Batch, id: Id)
    ensures NamedBad(calls + [c], id) <==> NamedBad(calls, id) || id in c.Named()
  {
    var more := calls + [c];
    assert more[|calls|] == c;
    if NamedBad(calls, id) {
      var i :| 0 <= i < |calls| && id in calls[i].Named();
      assert id in more[i].Named();
    }
  }

  lemma ShrinksMore(calls: seq<Batch>, c: Batch)
    requires Shrinking(calls) && c.sent != [] && forall i | 0 <= i < |calls| :: |c.sent| < |calls[i].sent|
    ensures Shrinking(calls + [c])
  {}

  lemma RejectedMore(calls: seq<Batch>, c: Batch, size: nat)
    requires AllRejected(calls) && c.answer.Rejected?
    requires size < |c.sent| && forall i | 0 <= i < |calls| :: |c.sent| < |calls[i].sent|
    ensures AllRejected(calls + [c]) && forall i | 0 <= i < |calls| + 1 :: size < |(calls + [c])[i].sent|
  {}

  /** A rejection drops exactly the ids it names, and at least one. */
  lemma SkipsMore(ids: seq<Id>, calls: seq<Batch>, rest: seq<Id>, bad: set<Id>, c: Batch)
    requires Skipping(ids, calls, rest, bad) && c.sent == rest && c.Named() != {}
    ensures Skipping(ids, calls + [c], Without(rest, c.Named()), bad + c.Named())
    ensures |Without(rest, c.Named())| < |rest|
  {
    var named := c.Named();
    assert exists id :: id in named;
    WithoutMeans(rest, named);
    WithoutTwice(ids, bad, named);
    ShrinksMore(calls, c);
    RejectedMore(calls, c, |Without(rest, named)|);
    forall id: Id
      ensures id in bad + named <==> NamedBad(calls + [c], id)
    {
      NamedMore(calls, c, id);
    }
  }

  /** A call that names none of its own ids is the last. */
  lemma SkipsEnd(ids: seq<Id>, calls: seq<Batch>, rest: seq<Id>, bad: set<Id>, c: Batch)
    requires Skipping(ids, calls, rest, bad) && c.sent == rest != []
    requires c.Named() == {}
    ensures Shrinking(calls + [c]) && rest == Without(ids, bad)
    ensures exists id | id in ids :: id !in bad
    ensures forall id :: id in bad <==> NamedBad(calls + [c], id)
  {
    ShrinksMore(calls, c);
    WithoutMeans(ids, bad);
    assert rest[0] in ids && rest[0] !in bad;
    forall id: Id
      ensures id in bad <==> NamedBad(calls + [c], id)
    {
      NamedMore(calls, c, id);
    }
  }

  /** It ends with a call that sent exactly the ids that no call named; or with no id left,
      each having been named; or with a failure that names none of the ids it sent. */
  method RetrySkipBadIds(answer: (nat, seq<Id>) -> BatchAnswer, ids: seq<Id>)
    returns (outcome: Outcome, calls: seq<Batch>, bad: set<Id>)
    ensures Shrinking(calls) && |calls| <= |ids| && AnsweredBy(answer, calls)
    ensures forall i | 0 <= i < |calls| - 1 :: calls[i].answer.Rejected?
    ensures forall id :: id in bad <==> NamedBad(calls, id)
    ensures outcome.NobodyLeft? <==> forall id | id in ids :: id in bad
    ensures !outcome.NobodyLeft? ==> calls != [] && calls[|calls| - 1].sent == Without(ids, bad) != []
    ensures outcome.Sent? ==> outcome.ids == Without(ids, bad)
    ensures outcome.Sent? <==> calls != [] && calls[|calls| - 1].answer.Done?
  {
    calls, bad := [], {};
    var rest, count := ids, 0;
    WithoutMeans(ids, {});
    while rest != []
      invariant count == |calls| && Skipping(ids, calls, rest, bad) && AnsweredBy(answer, calls)
      decreases |rest|
    {
      var reply := answer(count, rest);
      var c := Batch(rest, reply);
      var badIds := c.Named();
      if badIds == {} {
        SkipsEnd(ids, calls, rest, bad, c);
        calls := calls + [c];
        outcome := if reply.Done? then Sent(rest) else Error;
        return;
      }
      SkipsMore(ids, calls, rest, bad, c);
      calls := calls + [c];
      bad := bad + badIds;
      rest := Without(rest, badIds);
      count := count + 1;
    }
    outcome := NobodyLeft;
    WithoutMeans(ids, bad);
  }

  // ----- universal_retry

  type Arn = string

  const MAX_ATTEMPTS := 6

  datatype Universal =
    | Response(last: map<Arn, string>)
    | TagErrors(errors: map<Arn, string>)
    | Throttled(arns: set<Arn>)
    | NoMoreDelays

  /** One call: the arns sent, and the error codes of those that failed. */
  datatype TagCall = TagCall(sent: set<Arn>, failures: map<Arn, string>)

  predicate Throttles(code: string) {
    code == "ThrottlingException"
  }

  function ThrottledIn(failures: map<Arn, string>): set<Arn> {
    set a | a in failures && Throttles(failures[a])
  }

  /** The calls form one retry: each sends exactly the throttled arns of the one before. */
  ghost predicate Chain(arns: set<Arn>, calls: seq<TagCall>) {
    && (|calls| > 0 ==> calls[0].sent == arns)
    && (forall i | 0 <= i < |calls| :: calls[i].failures.Keys <= calls[i].sent)
    && (forall i | 0 < i < |calls| :: calls[i].sent != {} &&
          calls[i].sent == ThrottledIn(calls[i - 1].failures))
  }

  /** An arn is settled by a call that tagged it, or that reported it gone. */
  ghost predicate SettledBy(c: TagCall, a: Arn, gone: string -> bool) {
    a in c.sent && (a !in c.failures || (!Throttles(c.failures[a]) && gone(c.failures[a])))
  }

  ghost predicate AllSettledBy(c: TagCall, gone: string -> bool) {
    forall a | a in c.sent :: SettledBy(c, a, gone)
  }

  /** After some calls that all left something to do: the arns of the next are those every
      call so far throttled, or all of them at first, and the others are settled. */
  ghost predicate Trying(arns: set<Arn>, calls: seq<TagCall>, next: set<Arn>, gone: string -> bool) {
    && Chain(arns, calls) && next <= arns
    && (calls == [] ==> next == arns)
    && (calls != [] ==> next != {} && next == ThrottledIn(calls[|calls| - 1].failures))
    && (forall a | a in next :: ThrottledBy(calls, a))
    && (forall a | a in arns && a !in next :: SettledByAny(calls, a, gone))
  }

  ghost predicate Answered(answer: (nat, set<Arn>) -> map<Arn, string>, calls: seq<TagCall>) {
    forall i | 0 <= i < |calls| :: calls[i].failures == answer(i, calls[i].sent)
  }

  /** Every call throttled it. */
  ghost predicate ThrottledBy(calls: seq<TagCall>, a: Arn) {
    forall i | 0 <= i < |calls| :: a in ThrottledIn(calls[i].failures)
  }

  /** Some call settled it. */
  ghost predicate SettledByAny(calls: seq<TagCall>, a: Arn, gone: string -> bool) {
    exists i | 0 <= i < |calls| :: SettledBy(calls[i], a, gone)
  }

  lemma SettledStays(calls: seq<TagCall>, c: TagCall, a: Arn, gone: string -> bool)
    requires SettledByAny(calls, a, gone) || SettledBy(c, a, gone)
    ensures SettledByAny(calls + [c], a, gone)
  {
    var more := calls + [c];
    if SettledByAny(calls, a, gone) {
      var i :| 0 <= i < |calls| && SettledBy(calls[i], a, gone);
      assert SettledBy(more[i], a, gone);
    } else {
      assert SettledBy(more[|calls|], a, gone);
    }
  }

  lemma ChainsMore(arns: set<Arn>, calls: seq<TagCall>, c: TagCall)
    requires Chain(arns, calls) && c.failures.Keys <= c.sent
    requires calls == [] ==> c.sent == arns
    requires calls != [] ==> c.sent != {} && c.sent == ThrottledIn(calls[|calls| - 1].failures)
    ensures Chain(arns, calls + [c])
  {
    var more := calls + [c];
    forall i | 0 < i < |more|
      ensures more[i].sent != {} && more[i].sent == ThrottledIn(more[i - 1].failures)
    {
      assert more[i - 1] == calls[i - 1];
      assert i < |calls| ==> more[i] == calls[i];
    }
  }

  /** One more call, with no error that is neither a throttle nor a missing resource: what it
      throttled is next, and everything else is settled. */
  lemma TriesMore(arns: set<Arn>, calls: seq<TagCall>, next: set<Arn>, gone: string -> bool, failures: map<Arn, string>)
    requires Trying(arns, calls, next, gone) && failures.Keys <= next
    ensures Chain(arns, calls + [TagCall(next, failures)])
    ensures forall a | a in ThrottledIn(failures) :: a in arns && ThrottledBy(calls + [TagCall(next, failures)], a)
    ensures (forall a | a in failures :: Throttles(failures[a]) || gone(failures[a])) ==>
              forall a | a in arns && a !in ThrottledIn(failures) ::
                SettledByAny(calls + [TagCall(next, failures)], a, gone)
  {
    var c := TagCall(next, failures);
    ChainsMore(arns, calls, c);
    forall a | a in ThrottledIn(failures)
      ensures ThrottledBy(calls + [c], a)
    {
      assert ThrottledBy(calls, a);
    }
    if forall a | a in failures :: Throttles(failures[a]) || gone(failures[a]) {
      forall a | a in arns && a !in ThrottledIn(failures)
        ensures SettledByAny(calls + [c], a, gone)
      {
        SettledStays(calls, c, a, gone);
      }
    }
  }

  /** What an outcome says about the calls that led to it. */
  ghost predicate Ended(arns: set<Arn>, calls: seq<TagCall>, outcome: Universal, gone: string -> bool)
    requires calls != []
  {
    var last := calls[|calls| - 1];
    match outcome
    case Response(failures) =>
      && AllSettledBy(last, gone) && failures == last.failures
      && (forall a | a in arns :: SettledByAny(calls, a, gone))
    case TagErrors(errors) => !AllSettledBy(last, gone) && errors == ErrorsIn(last.failures, gone) != map[]
    case Throttled(late) =>
      && !AllSettledBy(last, gone) && |calls| == MAX_ATTEMPTS && late == ThrottledIn(last.failures) != {}
      && ErrorsIn(last.failures, gone) == map[]
      && (forall a | a in late :: a in arns && ThrottledBy(calls, a))
    case NoMoreDelays => false
  }

  /** The verdict on the last of some calls. */
  lemma CallEnds(arns: set<Arn>, calls: seq<TagCall>, next: set<Arn>, gone: string -> bool, failures: map<Arn, string>)
    requires Trying(arns, calls, next, gone) && failures.Keys <= next
    ensures Chain(arns, calls + [TagCall(next, failures)])
    ensures ErrorsIn(failures, gone) != map[] ==>
              Ended(arns, calls + [TagCall(next, failures)], TagErrors(ErrorsIn(failures, gone)), gone)
    ensures ErrorsIn(failures, gone) == map[] && ThrottledIn(failures) == {} ==>
              Ended(arns, calls + [TagCall(next, failures)], Response(failures), gone)
    ensures ErrorsIn(failures, gone) == map[] && ThrottledIn(failures) != {} && |calls| + 1 == MAX_ATTEMPTS ==>
              Ended(arns, calls + [TagCall(next, failures)], Throttled(ThrottledIn(failures)), gone)
    ensures ErrorsIn(failures, gone) == map[] && ThrottledIn(failures) != {} ==>
              Trying(arns, calls + [TagCall(next, failures)], ThrottledIn(failures), gone)
  {
    TriesMore(arns, calls, next, gone, failures);
    LastCall(TagCall(next, failures), gone);
  }

  lemma SixDelays(idx: nat)
    requires idx < MAX_ATTEMPTS
    ensures 1.5 <= Delay(1.5, idx) <= 48.0 && Total(1.5, idx) <= 46.5
  {
    DelayMonotone(1.5, idx, 5);
    TotalMonotone(1.5, idx, 5);
    assert Delay(1.5, 5) == 48.0;
    TotalIs(1.5, 5);
  }

  lemma AnsweredMore(answer: (nat, set<Arn>) -> map<Arn, string>, calls: seq<TagCall>, sent: set<Arn>)
    requires Answered(answer, calls)
    ensures Answered(answer, calls + [TagCall(sent, answer(|calls|, sent))])
  {}

  /** What the loop does with the failures of its call number idx; None is to call again. */
  method Examine(failures: map<Arn, string>, gone: string -> bool, idx: nat) returns (verdict: Option<Universal>)
    ensures ErrorsIn(failures, gone) != map[] ==> verdict == Some(TagErrors(ErrorsIn(failures, gone)))
    ensures ErrorsIn(failures, gone) == map[] && ThrottledIn(failures) == {} ==> verdict == Some(Response(failures))
    ensures ErrorsIn(failures, gone) == map[] && ThrottledIn(failures) != {} ==>
              verdict == if idx + 1 == MAX_ATTEMPTS then Some(Throttled(ThrottledIn(failures))) else None
  {
    if failures == map[] {
      return Some(Response(failures));
    }
    var errors, throttles := ErrorsIn(failures, gone), ThrottledIn(failures);
    if errors != map[] {
      return Some(TagErrors(errors));
    }
    if throttles == {} {
      return Some(Response(failures));
    }
    if idx == MAX_ATTEMPTS - 1 {
      return Some(Throttled(throttles));
    }
    verdict := None;
  }

  /** At most six calls, sleeping at most 46.5 seconds between them; it returns only when every
      arn was tagged by some call or reported gone, and it gives up only on arns that all six
      calls throttled. It never runs out of delays. */
  method UniversalRetry(answer: (nat, set<Arn>) -> map<Arn, string>, arns: set<Arn>, gone: string -> bool,
                        random: nat -> real)
    returns (outcome: Universal, calls: seq<TagCall>, slept: real)
    requires forall n, sent :: answer(n, sent).Keys <= sent
    requires IsRandom(random)
    ensures 1 <= |calls| <= 6 && Chain(arns, calls) && Answered(answer, calls)
    ensures Ended(arns, calls, outcome, gone)
    ensures slept <= 46.5
  {
    var delays := new BackoffDelays(1.5, 256.0, 2.0);
    var resources, idx := arns, 0;
    calls, slept := [], 0.0;
    while true
      invariant idx == |calls| < MAX_ATTEMPTS
      invariant fresh(delays) && delays.stop == 256.0 && delays.factor == 2.0
      invariant delays.cur == Delay(1.5, idx) >= 1.5 && slept <= Total(1.5, idx)
      invariant Trying(arns, calls, resources, gone) && Answered(answer, calls)
      decreases MAX_ATTEMPTS - idx
    {
      SixDelays(idx);
      var delay := delays.Next(random(idx));
      if delay.None? {
        outcome := NoMoreDelays;
        break;
      }
      var failures := answer(idx, resources);
      CallEnds(arns, calls, resources, gone, failures);
      AnsweredMore(answer, calls, resources);
      calls := calls + [TagCall(resources, failures)];
      var verdict := Examine(failures, gone, idx);
      if verdict.Some? {
        outcome := verdict.value;
        break;
      }
      slept := slept + delay.value;
      resources := ThrottledIn(failures);
      idx := idx + 1;
    }
  }

  function ErrorsIn(failures: map<Arn, string>, gone: string -> bool): map<Arn, string> {
    map a | a in failures && !Throttles(failures[a]) && !gone(failures[a]) :: failures[a]
  }

  /** A call settles all it sent exactly when it has no error and throttles nothing. */
  lemma LastCall(c: TagCall, gone: string -> bool)
    requires c.failures.Keys <= c.sent
    ensures AllSettledBy(c, gone) <==> ErrorsIn(c.failures, gone) == map[] && ThrottledIn(c.failures) == {}
    ensures ErrorsIn(c.failures, gone) == map[] <==>
              forall a | a in c.failures :: Throttles(c.failures[a]) || gone(c.failures[a])
  {
    var errors, throttled := ErrorsIn(c.failures, gone), ThrottledIn(c.failures);
    forall a | a in c.sent
      ensures SettledBy(c, a, gone) <==> a !in errors && a !in throttled
    {}
    if errors != map[] {
      var a :| a in errors;
      assert !SettledBy(c, a, gone);
    }
    if throttled != {} {
      var a :| a in throttled;
      assert !SettledBy(c, a, gone);
    }
  }

  /** Only throttled arns are sent again. */
  lemma SentAgain(arns: set<Arn>, calls: seq<TagCall>, i: nat, a: Arn)
    requires Chain(arns, calls) && 0 < i < |calls|
    ensures a in calls[i].sent <==>
            a in calls[i - 1].failures && calls[i - 1].failures[a] == "ThrottlingException"
  {
    assert calls[i].sent == ThrottledIn(calls[i - 1].failures);
  }

  /** What the outcome says of the codes that the last call came back with. */
  ghost predicate ByCodes(outcome: Universal, failures: map<Arn, string>, gone: string -> bool) {
    match outcome
    case Response(given) =>
      given == failures && forall a | a in failures :: failures[a] != "ThrottlingException" && gone(failures[a])
    case TagErrors(errors) =>
      && (exists a :: a in errors)
      && forall a :: (a in errors <==> a in failures && failures[a] != "ThrottlingException" && !gone(failures[a])) &&
                     (a in errors ==> errors[a] == failures[a])
    case Throttled(late) =>
      && (exists a :: a in late)
      && (forall a :: a in late <==> a in failures && failures[a] == "ThrottlingException")
      && (forall a | a in failures && a !in late :: gone(failures[a]))
    case NoMoreDelays => false
  }

  lemma OutcomeOfCodes(arns: set<Arn>, calls: seq<TagCall>, outcome: Universal, gone: string -> bool)
    requires calls != [] && Chain(arns, calls) && Ended(arns, calls, outcome, gone)
    ensures ByCodes(outcome, calls[|calls| - 1].failures, gone)
    ensures outcome.Throttled? ==> |calls| == 6
  {
    CodesDecide(calls[|calls| - 1], outcome, gone);
  }

  lemma CodesDecide(last: TagCall, outcome: Universal, gone: string -> bool)
    requires last.failures.Keys <= last.sent && !outcome.NoMoreDelays?
    requires outcome.Response? ==> AllSettledBy(last, gone) && outcome.last == last.failures
    requires outcome.TagErrors? ==> outcome.errors == ErrorsIn(last.failures, gone) != map[]
    requires outcome.Throttled? ==>
               outcome.arns == ThrottledIn(last.failures) != {} && ErrorsIn(last.failures, gone) == map[]
    ensures ByCodes(outcome, last.failures, gone)
  {
    LastCall(last, gone);
    var failures := last.failures;
    var errors, throttled := ErrorsIn(failures, gone), ThrottledIn(failures);
    assert forall a :: a in throttled <==> a in failures && failures[a] == "ThrottlingException";
    assert errors != map[] ==> exists a :: a in errors;
  }
}
