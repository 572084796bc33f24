/** RetryUtil: re-invoking a fallible operation until it succeeds or its tries run out.

    An operation is modelled by the outcome of each of its invocations: `op(i)` is what the
    (i+1)-th call of `function.apply(input)` (or `consumer.accept(input)`) does, so the
    input, which every call receives unchanged, is folded into `op`.  Sleeping is modelled
    by the log of the values passed to `doSleep`; an interrupt from another thread during the
    j-th `doSleep` is given by `interrupts(j)`, and the thread's interrupt status is threaded
    through the loops.  Every `int` computation of a delay wraps around as in Java.

    The loops come in four shapes:
    (A) Optional-returning: `++retries < maxRetries`, so at most max(1, maxRetries) calls.
    (B) Throw on exhaustion: `retries++ < maxRetries`, so at most max(0, maxRetries) + 1 calls,
        then a RuntimeException wrapping the last exception.
    (C) Return the default on exhaustion, null optionally counting as a failure.
    (D) Consumer, returning normally even on exhaustion. */
module RetryUtil {
  import opened Jdk

  const DEFAULT_RETRIES: Int32 := 10
  const DEFAULT_SLEEP_MS: Int32 := 500

  // ---------------------------------------------------------------------------
  // Delay functions and doSleep

  /** A `BiFunction<Integer, Integer, Integer>` from (retry, delayMultiplier) to a factor of sleepMs. */
  type DelayFunction = (Int32, Int32) -> Int32

  /** `withoutDelay`: the factor is always 1, so every sleep is sleepMs. */
  function WithoutDelay(retry: Int32, delayMultiplier: Int32): (factor: Int32)
    ensures factor == 1
  {
    1
  }

  /** `withMultipliedDelay`: the factor is retry * delayMultiplier (int arithmetic). */
  function WithMultipliedDelay(retry: Int32, delayMultiplier: Int32): (factor: Int32)
    ensures -0x8000_0000 <= retry * delayMultiplier <= 0x7fff_ffff ==> factor == retry * delayMultiplier
  {
    Mul32(retry, delayMultiplier)
  }

  /** The thread's interrupt status after `doSleep(ms)`, given its status before and whether
      another thread interrupts it during the call.  A request of zero or less does nothing.
      Otherwise `Thread.sleep` either completes or throws InterruptedException (at once when
      the status is already set), and the handler sets the status again: retrying goes on. */
  function DoSleep(ms: Int32, interrupted: bool, interruptArrives: bool): (after: bool)
    ensures ms <= 0 ==> after == interrupted
    ensures ms > 0 ==> (after <==> interrupted || interruptArrives)
  {
    if ms > 0 then interrupted || interruptArrives else interrupted
  }

  /** The interrupt status after the doSleep requests `sleeps`, starting from `before`:
      set when it was set before, or when an interrupt arrived during a request that slept. */
  predicate Interrupted(before: bool, sleeps: seq<int>, interrupts: nat -> bool) {
    before || exists j :: 0 <= j < |sleeps| && sleeps[j] > 0 && interrupts(j)
  }

  /** One more doSleep request updates the status the way DoSleep says. */
  lemma InterruptedSnoc(before: bool, sleeps: seq<int>, ms: Int32, interrupts: nat -> bool)
    ensures Interrupted(before, sleeps + [ms], interrupts)
            == DoSleep(ms, Interrupted(before, sleeps, interrupts), interrupts(|sleeps|))
  {
    var s := sleeps + [ms];
    if Interrupted(before, sleeps, interrupts) && !before {
      var j :| 0 <= j < |sleeps| && sleeps[j] > 0 && interrupts(j);
      assert s[j] == sleeps[j];
    }
    if Interrupted(before, s, interrupts) && !before {
      var j :| 0 <= j < |s| && s[j] > 0 && interrupts(j);
      if j < |sleeps| {
        assert sleeps[j] == s[j];
      }
    }
    if ms > 0 && interrupts(|sleeps|) {
      assert s[|sleeps|] == ms;
    }
  }

  /** One `doSleep(ms)` call: the request is logged and the interrupt status moves as DoSleep says,
      so the status stays the one the whole log determines. */
  method RequestSleep(sleeps: seq<int>, interrupted: bool, ms: Int32, wasInterrupted: bool, interrupts: nat -> bool)
    returns (sleeps': seq<int>, interrupted': bool)
    requires interrupted == Interrupted(wasInterrupted, sleeps, interrupts)
    ensures sleeps' == sleeps + [ms]
    ensures interrupted' == DoSleep(ms, interrupted, interrupts(|sleeps|))
    ensures interrupted' == Interrupted(wasInterrupted, sleeps', interrupts)
  {
    InterruptedSnoc(wasInterrupted, sleeps, ms, interrupts);
    interrupted' := DoSleep(ms, interrupted, interrupts(|sleeps|));
    sleeps' := sleeps + [ms];
  }

  /** `sleeps` is exactly the requests made before retries 1..n, the one before retry r being
      `sleepMs * delay(r, delayMultiplier)` in int arithmetic. */
  predicate SleepLog(sleeps: seq<int>, n: nat, sleepMs: Int32, delay: DelayFunction, delayMultiplier: Int32) {
    && n <= 0x7fff_ffff
    && |sleeps| == n
    && forall j :: 0 <= j < n ==> sleeps[j] == Mul32(sleepMs, delay(j + 1, delayMultiplier))
  }

  /** The request before retry n + 1 extends the log of the first n. */
  lemma SleepLogSnoc(sleeps: seq<int>, n: nat, sleepMs: Int32, delay: DelayFunction, delayMultiplier: Int32)
    requires SleepLog(sleeps, n, sleepMs, delay, delayMultiplier) && n < 0x7fff_ffff
    ensures SleepLog(sleeps + [Mul32(sleepMs, delay(n + 1, delayMultiplier))], n + 1, sleepMs, delay, delayMultiplier)
  {
    var ms := Mul32(sleepMs, delay(n + 1, delayMultiplier));
    forall j | 0 <= j < n + 1 ensures (sleeps + [ms])[j] == Mul32(sleepMs, delay(j + 1, delayMultiplier)) {
      if j < n {
        assert (sleeps + [ms])[j] == sleeps[j];
      }
    }
  }

  /** `sleeps` is exactly the requests made before retries 1..n, the one before retry r being
      `sleepMs * r` in int arithmetic. */
  predicate LinearSleepLog(sleeps: seq<int>, n: nat, sleepMs: Int32) {
    && n <= 0x7fff_ffff
    && |sleeps| == n
    && forall j :: 0 <= j < n ==> sleeps[j] == Mul32(sleepMs, j + 1)
  }

  /** With withoutDelay every request is the constant sleepMs. */
  lemma WithoutDelayIsConstant(sleeps: seq<int>, n: nat, sleepMs: Int32, delayMultiplier: Int32)
    requires SleepLog(sleeps, n, sleepMs, WithoutDelay, delayMultiplier)
    ensures forall j :: 0 <= j < n ==> sleeps[j] == sleepMs
  {
  }

  /** With withMultipliedDelay the request before retry r is sleepMs * r * delayMultiplier,
      as long as the products fit in an int. */
  lemma WithMultipliedDelayIsLinear(sleeps: seq<int>, n: nat, sleepMs: Int32, delayMultiplier: Int32, r: nat)
    requires SleepLog(sleeps, n, sleepMs, WithMultipliedDelay, delayMultiplier)
    requires 1 <= r <= n
    requires -0x8000_0000 <= r * delayMultiplier <= 0x7fff_ffff
    requires -0x8000_0000 <= sleepMs * (r * delayMultiplier) <= 0x7fff_ffff
    ensures sleeps[r - 1] == sleepMs * (r * delayMultiplier)
  {
  }

  /** In a linear log the request before retry r is sleepMs * r, as long as that fits in an int. */
  lemma LinearSleepIsProduct(sleeps: seq<int>, n: nat, sleepMs: Int32, r: nat)
    requires LinearSleepLog(sleeps, n, sleepMs)
    requires 1 <= r <= n
    requires -0x8000_0000 <= sleepMs * r <= 0x7fff_ffff
    ensures sleeps[r - 1] == sleepMs * r
  {
  }

  /** The linear log of the shape-B loops is the multiplied log with multiplier 1. */
  lemma LinearIsMultipliedByOne(sleeps: seq<int>, n: nat, sleepMs: Int32)
    ensures LinearSleepLog(sleeps, n, sleepMs) <==> SleepLog(sleeps, n, sleepMs, WithMultipliedDelay, 1)
  {
  }

  // ---------------------------------------------------------------------------
  // How many calls a loop makes

  /** The most calls a shape-A loop makes: `++retries < maxRetries` allows max(1, maxRetries). */
  function OptionalTries(maxRetries: Int32): nat {
    if maxRetries < 1 then 1 else maxRetries
  }

  /** The most calls a shape B-D loop makes: `retries++ < maxRetries` allows max(0, maxRetries) + 1. */
  function RetryTries(maxRetries: Int32): nat {
    if maxRetries < 0 then 1 else maxRetries + 1
  }

  /** The off-by-one between the shapes: for a positive maxRetries the retry shapes make one
      call more than the Optional shape; otherwise both make exactly one. */
  lemma TriesOffByOne(maxRetries: Int32)
    ensures maxRetries >= 1 ==> RetryTries(maxRetries) == OptionalTries(maxRetries) + 1 == maxRetries + 1
    ensures maxRetries < 1 ==> RetryTries(maxRetries) == OptionalTries(maxRetries) == 1
  {
  }

  /** A loop that made `calls` calls of `op`, allowed at most `tries`, retrying while `failed`:
      every call but the last failed, and it stopped before `tries` only because the last call
      did not fail. */
  predicate Stops<O>(op: nat -> O, failed: O -> bool, calls: nat, tries: nat) {
    && 1 <= calls <= tries
    && (forall i :: 0 <= i < calls - 1 ==> failed(op(i)))
    && (calls < tries ==> !failed(op(calls - 1)))
  }

  /** Stops determines the number of calls. */
  lemma StopsUnique<O>(op: nat -> O, failed: O -> bool, c1: nat, c2: nat, tries: nat)
    requires Stops(op, failed, c1, tries) && Stops(op, failed, c2, tries)
    ensures c1 == c2
  {
  }

  /** When the first call that does not fail is the (k+1)-th, within the tries allowed,
      exactly k+1 calls are made. */
  lemma StopsAtFirstSuccess<O>(op: nat -> O, failed: O -> bool, calls: nat, tries: nat, k: nat)
    requires Stops(op, failed, calls, tries)
    requires k < tries && !failed(op(k)) && forall i :: 0 <= i < k ==> failed(op(i))
    ensures calls == k + 1
  {
  }

  /** When every allowed call fails, all the tries are used. */
  lemma StopsExhausted<O>(op: nat -> O, failed: O -> bool, calls: nat, tries: nat)
    requires Stops(op, failed, calls, tries)
    requires forall i :: 0 <= i < tries ==> failed(op(i))
    ensures calls == tries
  {
  }

  // ---------------------------------------------------------------------------
  // Failure classification

  /** Shape A retries after an exception (caught and replaced by Optional.empty()) and after
      an empty Optional; a present Optional or a null reference ends the loop. */
  predicate RetriesOptional<R>(o: Outcome<Optional<R>>) {
    o.Throws? || o == Returns(NonNull(Empty))
  }

  /** How a shape-A call ends after its last invocation: a thrown exception counts as empty,
      and a null Optional makes `result.isPresent()` throw a NullPointerException. */
  function OptionalExit<R>(o: Outcome<Optional<R>>): (r: Exit<Optional<R>>)
    ensures r.Throw? <==> o == Returns(Null)
    ensures r.Throw? ==> r.thrown == NullPointerException
    ensures RetriesOptional(o) ==> r == Return(Empty)
    ensures o.Returns? && o.result.NonNull? ==> r == Return(o.result.value)
  {
    match o
    case Throws(_) => Return(Empty)
    case Returns(Null) => Throw(NullPointerException)
    case Returns(NonNull(opt)) => Return(opt)
  }

  /** A shape-A loop whose every allowed call asks for a retry uses all its tries and ends empty. */
  lemma AllRetriedIsEmpty<R>(op: nat -> Outcome<Optional<R>>, calls: nat, tries: nat, result: Exit<Optional<R>>)
    requires Stops(op, RetriesOptional, calls, tries) && result == OptionalExit(op(calls - 1))
    ensures (forall i :: 0 <= i < tries ==> RetriesOptional(op(i))) ==> calls == tries && result == Return(Empty)
  {
    if forall i :: 0 <= i < tries ==> RetriesOptional(op(i)) {
      StopsExhausted(op, RetriesOptional, calls, tries);
    }
  }

  /** Shapes B and D, and C without the null check: only an exception is a failure. */
  predicate ThrowsOnly<T>(o: Outcome<T>) {
    o.Throws?
  }

  /** Shape C with the null check: an exception or a null result is a failure. */
  predicate ThrowsOrNull<T>(o: Outcome<T>) {
    o.Throws? || o.result.Null?
  }

  /** The failure test of shape C: `checkForNull && isNull(result)` or an exception. */
  function Classifier<T>(checkForNull: bool): Outcome<T> -> bool {
    if checkForNull then ThrowsOrNull else ThrowsOnly
  }

  /** A consumer call fails by throwing. */
  predicate ConsumerFails(c: Completion) {
    c.Fails?
  }

  /** How a shape-B call ends after its last invocation: the value, null included, or a
      RuntimeException wrapping the last exception. */
  function ThrowingExit<T>(o: Outcome<T>): (r: Exit<Nullable<T>>)
    ensures r.Throw? <==> o.Throws?
    ensures o.Throws? ==> r.thrown == RuntimeException(o.cause)
    ensures o.Returns? ==> r.value == o.result
  {
    match o
    case Returns(v) => Return(v)
    case Throws(e) => Throw(RuntimeException(e))
  }

  // ---------------------------------------------------------------------------
  // Shape A

  /** `getOptionalWithRetries(function, input, maxRetries, operation)` (and its BiFunction
      overload, which is the same loop over two inputs). */
  method GetOptionalWithRetries<R>(op: nat -> Outcome<Optional<R>>, maxRetries: Int32)
    returns (calls: nat, result: Exit<Optional<R>>)
    ensures Stops(op, RetriesOptional, calls, OptionalTries(maxRetries))
    ensures result == OptionalExit(op(calls - 1))
    ensures (forall i :: 0 <= i < OptionalTries(maxRetries) ==> RetriesOptional(op(i)))
            ==> calls == OptionalTries(maxRetries) && result == Return(Empty)
  {
    var retries: Int32 := 0;
    var res: Nullable<Optional<R>> := Null;
    var again := true;
    calls := 0;
    while again
      invariant 0 <= retries <= calls <= OptionalTries(maxRetries)
      invariant again ==> calls == retries < OptionalTries(maxRetries)
      invariant again ==> forall i :: 0 <= i < calls ==> RetriesOptional(op(i))
      invariant !again ==> Stops(op, RetriesOptional, calls, OptionalTries(maxRetries))
                           && res.NonNull? && OptionalExit(op(calls - 1)) == Return(res.value)
      decreases OptionalTries(maxRetries) - calls
    {
      match op(calls) {
        case Returns(v) => res := v;
        case Throws(_) => res := NonNull(Empty);
      }
      calls := calls + 1;
      if res.Null? {
        result := Throw(NullPointerException);
        return;
      }
      if res.value.Empty? {
        retries := retries + 1;
        again := retries < maxRetries;
      } else {
        again := false;
      }
    }
    result := Return(res.value);
  }

  /** The doSleep before retry n + 1 of the progressive loop: it asks for
      sleepMs * withMultipliedDelay(n + 1, delayMultiplier) and extends the log of the first n. */
  method ProgressiveSleep(sleeps: seq<int>, interrupted: bool, n: nat, sleepMs: Int32, delayMultiplier: Int32,
                          wasInterrupted: bool, interrupts: nat -> bool)
    returns (sleeps': seq<int>, interrupted': bool)
    requires SleepLog(sleeps, n, sleepMs, WithMultipliedDelay, delayMultiplier) && n < 0x7fff_ffff
    requires interrupted == Interrupted(wasInterrupted, sleeps, interrupts)
    ensures sleeps' == sleeps + [Mul32(sleepMs, WithMultipliedDelay(n + 1, delayMultiplier))]
    ensures SleepLog(sleeps', n + 1, sleepMs, WithMultipliedDelay, delayMultiplier)
    ensures interrupted' == Interrupted(wasInterrupted, sleeps', interrupts)
  {
    var ms := Mul32(sleepMs, WithMultipliedDelay(n + 1, delayMultiplier));
    SleepLogSnoc(sleeps, n, sleepMs, WithMultipliedDelay, delayMultiplier);
    sleeps', interrupted' := RequestSleep(sleeps, interrupted, ms, wasInterrupted, interrupts);
  }

  /** `getOptionalWithRetriesWithProgressiveDelay`: shape A with a doSleep of
      `sleepMs * withMultipliedDelay(retries, delayMultiplier)` before every call but the first. */
  method GetOptionalWithRetriesWithProgressiveDelay<R>(op: nat -> Outcome<Optional<R>>, maxRetries: Int32,
                                                         sleepMs: Int32, delayMultiplier: Int32,
                                                         interrupts: nat -> bool, wasInterrupted: bool)
    returns (calls: nat, sleeps: seq<int>, interrupted: bool, result: Exit<Optional<R>>)
    ensures Stops(op, RetriesOptional, calls, OptionalTries(maxRetries))
    ensures result == OptionalExit(op(calls - 1))
    ensures (forall i :: 0 <= i < OptionalTries(maxRetries) ==> RetriesOptional(op(i)))
            ==> calls == OptionalTries(maxRetries) && result == Return(Empty)
    ensures SleepLog(sleeps, calls - 1, sleepMs, WithMultipliedDelay, delayMultiplier)
    ensures interrupted == Interrupted(wasInterrupted, sleeps, interrupts)
  {
    var retries: Int32 := 0;
    var res: Nullable<Optional<R>> := Null;
    var again := true;
    calls, sleeps, interrupted := 0, [], wasInterrupted;
    while again
      invariant 0 <= retries <= calls <= OptionalTries(maxRetries)
      invariant again ==> calls == retries < OptionalTries(maxRetries)
      invariant again ==> forall i :: 0 <= i < calls ==> RetriesOptional(op(i))
      invariant !again ==> Stops(op, RetriesOptional, calls, OptionalTries(maxRetries))
                           && res.NonNull? && OptionalExit(op(calls - 1)) == Return(res.value)
      invariant again ==> SleepLog(sleeps, if calls == 0 then 0 else calls - 1, sleepMs, WithMultipliedDelay, delayMultiplier)
      invariant !again ==> SleepLog(sleeps, calls - 1, sleepMs, WithMultipliedDelay, delayMultiplier)
      invariant interrupted == Interrupted(wasInterrupted, sleeps, interrupts)
      decreases OptionalTries(maxRetries) - calls
    {
      if retries != 0 {
        sleeps, interrupted := ProgressiveSleep(sleeps, interrupted, calls - 1, sleepMs, delayMultiplier,
                                                wasInterrupted, interrupts);
      }
      match op(calls) {
        case Returns(v) => res := v;
        case Throws(_) => res := NonNull(Empty);
      }
      calls := calls + 1;
      if res.Null? {
        result := Throw(NullPointerException);
        AllRetriedIsEmpty(op, calls, OptionalTries(maxRetries), result);
        return;
      }
      if res.value.Empty? {
        retries := retries + 1;
        again := retries < maxRetries;
      } else {
        again := false;
      }
    }
    result := Return(res.value);
    AllRetriedIsEmpty(op, calls, OptionalTries(maxRetries), result);
  }

  // ---------------------------------------------------------------------------
  // Shape B

  /** `executeWithRetryThrowingException(function, input, defaultValue, maxRetries, sleepMs)`:
      the first call that returns (even null) ends the loop and resets lastException, so its
      value is returned; after max(0, maxRetries) + 1 exceptions a RuntimeException wrapping
      the last one is thrown.  defaultValue is never returned unless a call returned it. */
  method ExecuteWithRetryThrowingException<T>(op: nat -> Outcome<T>, defaultValue: Nullable<T>,
                                              maxRetries: Int32, sleepMs: Int32,
                                              interrupts: nat -> bool, wasInterrupted: bool)
    returns (calls: nat, sleeps: seq<int>, interrupted: bool, result: Exit<Nullable<T>>)
    ensures Stops(op, ThrowsOnly, calls, RetryTries(maxRetries))
    ensures result == ThrowingExit(op(calls - 1))
    ensures LinearSleepLog(sleeps, calls - 1, sleepMs)
    ensures interrupted == Interrupted(wasInterrupted, sleeps, interrupts)
  {
    var retries: int := 0;  // a Java int, but it can pass Integer.MAX_VALUE only after the last call
    var needRetry := true;
    var res := defaultValue;
    var lastException: Nullable<Exception> := Null;
    calls, sleeps, interrupted := 0, [], wasInterrupted;
    while needRetry
      invariant 0 <= calls <= RetryTries(maxRetries)
      invariant needRetry ==> calls == retries < RetryTries(maxRetries)
      invariant needRetry ==> forall i :: 0 <= i < calls ==> ThrowsOnly(op(i))
      invariant needRetry ==> LinearSleepLog(sleeps, calls, sleepMs)
      invariant !needRetry ==> Stops(op, ThrowsOnly, calls, RetryTries(maxRetries))
                               && LinearSleepLog(sleeps, calls - 1, sleepMs)
                               && ThrowingExit(op(calls - 1))
                                  == (if lastException.NonNull? then Throw(RuntimeException(lastException.value)) else Return(res))
      invariant interrupted == Interrupted(wasInterrupted, sleeps, interrupts)
      decreases RetryTries(maxRetries) - calls
    {
      var o := op(calls);
      calls := calls + 1;
      match o {
        case Returns(v) =>
          res := v;
          needRetry := false;
          lastException := Null;
        case Throws(e) =>
          lastException := NonNull(e);
          needRetry := retries < maxRetries;
          retries := retries + 1;
          if needRetry {
            var ms := Mul32(sleepMs, retries);
            sleeps, interrupted := RequestSleep(sleeps, interrupted, ms, wasInterrupted, interrupts);
          }
      }
    }
    if lastException.NonNull? {
      result := Throw(RuntimeException(lastException.value));
    } else {
      result := Return(res);
    }
  }

  /** `executeWithRetryThrowingException(biFunction, input1, input2, defaultValue, maxRetries)`:
      the shape-B loop with the constant DEFAULT_SLEEP_MS, so the request before retry r is 500 * r. */
  method ExecuteWithRetryThrowingExceptionBi<T>(op: nat -> Outcome<T>, defaultValue: Nullable<T>, maxRetries: Int32,
                                                interrupts: nat -> bool, wasInterrupted: bool)
    returns (calls: nat, sleeps: seq<int>, interrupted: bool, result: Exit<Nullable<T>>)
    ensures Stops(op, ThrowsOnly, calls, RetryTries(maxRetries))
    ensures result == ThrowingExit(op(calls - 1))
    ensures LinearSleepLog(sleeps, calls - 1, DEFAULT_SLEEP_MS)
    ensures interrupted == Interrupted(wasInterrupted, sleeps, interrupts)
  {
    calls, sleeps, interrupted, result :=
      ExecuteWithRetryThrowingException(op, defaultValue, maxRetries, DEFAULT_SLEEP_MS, interrupts, wasInterrupted);
  }

  // ---------------------------------------------------------------------------
  // Shape C

  /** `executeWithRetryOnException(biFunction, input1, input2, defaultValue, maxRetries)`:
      an exception is the only failure (a null result is returned); after max(0, maxRetries) + 1
      exceptions the result still holds defaultValue, which is returned.  The request before
      retry r is DEFAULT_SLEEP_MS * r. */
  method ExecuteWithRetryOnExceptionBi<T>(op: nat -> Outcome<T>, defaultValue: Nullable<T>, maxRetries: Int32,
                                          interrupts: nat -> bool, wasInterrupted: bool)
    returns (calls: nat, sleeps: seq<int>, interrupted: bool, result: Nullable<T>)
    ensures Stops(op, ThrowsOnly, calls, RetryTries(maxRetries))
    ensures result == if op(calls - 1).Throws? then defaultValue else op(calls - 1).result
    ensures LinearSleepLog(sleeps, calls - 1, DEFAULT_SLEEP_MS)
    ensures interrupted == Interrupted(wasInterrupted, sleeps, interrupts)
  {
    var retries: int := 0;  // a Java int, but it can pass Integer.MAX_VALUE only after the last call
    var needRetry := true;
    result := defaultValue;
    calls, sleeps, interrupted := 0, [], wasInterrupted;
    while needRetry
      invariant 0 <= calls <= RetryTries(maxRetries)
      invariant needRetry ==> calls == retries < RetryTries(maxRetries) && result == defaultValue
      invariant needRetry ==> forall i :: 0 <= i < calls ==> ThrowsOnly(op(i))
      invariant needRetry ==> LinearSleepLog(sleeps, calls, DEFAULT_SLEEP_MS)
      invariant !needRetry ==> Stops(op, ThrowsOnly, calls, RetryTries(maxRetries))
                               && LinearSleepLog(sleeps, calls - 1, DEFAULT_SLEEP_MS)
                               && result == if op(calls - 1).Throws? then defaultValue else op(calls - 1).result
      invariant interrupted == Interrupted(wasInterrupted, sleeps, interrupts)
      decreases RetryTries(maxRetries) - calls
    {
      var o := op(calls);
      calls := calls + 1;
      match o {
        case Returns(v) =>
          result := v;
          needRetry := false;
        case Throws(e) =>
          needRetry := retries < maxRetries;
          retries := retries + 1;
          if needRetry {
            var ms := Mul32(DEFAULT_SLEEP_MS, retries);
            sleeps, interrupted := RequestSleep(sleeps, interrupted, ms, wasInterrupted, interrupts);
          }
      }
    }
  }

  /** The private `executeWithRetryOnExceptionOrNullWithProgressiveDelay`: a call fails by
      throwing, or by returning null when checkForNull; the first call that does not fail has
      its result returned at once; after max(0, maxRetries) + 1 failures defaultValue itself is
      returned.  The request before retry r is `sleepMs * delay(r, delayMultiplier)`. */
  method ExecuteWithRetryOnExceptionOrNull<T>(op: nat -> Outcome<T>, defaultValue: Nullable<T>,
                                              sleepMs: Int32, delay: DelayFunction, delayMultiplier: Int32,
                                              maxRetries: Int32, checkForNull: bool,
                                              interrupts: nat -> bool, wasInterrupted: bool)
    returns (calls: nat, sleeps: seq<int>, interrupted: bool, result: Nullable<T>)
    ensures Stops(op, Classifier(checkForNull), calls, RetryTries(maxRetries))
    ensures result == if Classifier(checkForNull)(op(calls - 1)) then defaultValue else op(calls - 1).result
    ensures SleepLog(sleeps, calls - 1, sleepMs, delay, delayMultiplier)
    ensures interrupted == Interrupted(wasInterrupted, sleeps, interrupts)
  {
    var retries: int := 0;  // a Java int, but it can pass Integer.MAX_VALUE only after the last call
    var failed := Classifier(checkForNull);
    calls, sleeps, interrupted := 0, [], wasInterrupted;
    while true
      invariant 0 <= calls == retries < RetryTries(maxRetries)
      invariant forall i :: 0 <= i < calls ==> failed(op(i))
      invariant SleepLog(sleeps, calls, sleepMs, delay, delayMultiplier)
      invariant interrupted == Interrupted(wasInterrupted, sleeps, interrupts)
      decreases RetryTries(maxRetries) - calls
    {
      var res := defaultValue;
      var fail: bool;
      var o := op(calls);
      calls := calls + 1;
      match o {
        case Returns(v) =>
          res := v;
          fail := checkForNull && v.Null?;
        case Throws(_) =>
          fail := true;
      }
      assert fail == failed(o);
      if !fail {
        return calls, sleeps, interrupted, res;
      } else if retries < maxRetries {
        retries := retries + 1;
        var ms := Mul32(sleepMs, delay(retries, delayMultiplier));
        sleeps, interrupted := RequestSleep(sleeps, interrupted, ms, wasInterrupted, interrupts);
      } else {
        return calls, sleeps, interrupted, defaultValue;
      }
    }
  }

  // ---------------------------------------------------------------------------
  // Shape D

  /** The private Consumer `executeWithRetryOnExceptionWithProgressiveDelay`: the first call
      that does not throw ends the loop; after max(0, maxRetries) + 1 exceptions it returns
      normally all the same.  The request before retry r is `sleepMs * delay(r, delayMultiplier)`. */
  method ExecuteConsumerWithRetries(op: nat -> Completion, sleepMs: Int32, delay: DelayFunction,
                                    delayMultiplier: Int32, maxRetries: Int32,
                                    interrupts: nat -> bool, wasInterrupted: bool)
    returns (calls: nat, sleeps: seq<int>, interrupted: bool)
    ensures Stops(op, ConsumerFails, calls, RetryTries(maxRetries))
    ensures SleepLog(sleeps, calls - 1, sleepMs, delay, delayMultiplier)
    ensures interrupted == Interrupted(wasInterrupted, sleeps, interrupts)
  {
    var retries: int := 0;  // a Java int, but it can pass Integer.MAX_VALUE only after the last call
    var needRetry := true;
    calls, sleeps, interrupted := 0, [], wasInterrupted;
    while needRetry
      invariant 0 <= calls <= RetryTries(maxRetries)
      invariant needRetry ==> calls == retries < RetryTries(maxRetries)
      invariant needRetry ==> forall i :: 0 <= i < calls ==> ConsumerFails(op(i))
      invariant needRetry ==> SleepLog(sleeps, calls, sleepMs, delay, delayMultiplier)
      invariant !needRetry ==> Stops(op, ConsumerFails, calls, RetryTries(maxRetries))
                               && SleepLog(sleeps, calls - 1, sleepMs, delay, delayMultiplier)
      invariant interrupted == Interrupted(wasInterrupted, sleeps, interrupts)
      decreases RetryTries(maxRetries) - calls
    {
      var c := op(calls);
      calls := calls + 1;
      match c {
        case Completes =>
          needRetry := false;
        case Fails(_) =>
          needRetry := retries < maxRetries;
          retries := retries + 1;
          if needRetry {
            var ms := Mul32(sleepMs, delay(retries, delayMultiplier));
            sleeps, interrupted := RequestSleep(sleeps, interrupted, ms, wasInterrupted, interrupts);
          }
      }
    }
  }

  // ---------------------------------------------------------------------------
  // The overloads that only fill in defaults

  /** `getOptionalWithDefaultRetries`: shape A with DEFAULT_RETRIES, so at most 10 calls. */
  method GetOptionalWithDefaultRetries<R>(op: nat -> Outcome<Optional<R>>)
    returns (calls: nat, result: Exit<Optional<R>>)
    ensures Stops(op, RetriesOptional, calls, 10)
    ensures result == OptionalExit(op(calls - 1))
  {
    calls, result := GetOptionalWithRetries(op, DEFAULT_RETRIES);
  }

  /** `executeWithRetryOnException(consumer, input)`: shape D with DEFAULT_SLEEP_MS, withoutDelay
      and DEFAULT_RETRIES: at most 11 calls, every request 500 ms. */
  method ExecuteConsumerWithDefaults(op: nat -> Completion, interrupts: nat -> bool, wasInterrupted: bool)
    returns (calls: nat, sleeps: seq<int>, interrupted: bool)
    ensures Stops(op, ConsumerFails, calls, 11)
    ensures |sleeps| == calls - 1 && forall j :: 0 <= j < |sleeps| ==> sleeps[j] == 500
    ensures interrupted == Interrupted(wasInterrupted, sleeps, interrupts)
  {
    calls, sleeps, interrupted := ExecuteConsumerWithMaxRetries(op, DEFAULT_RETRIES, interrupts, wasInterrupted);
  }

  /** `executeWithRetryOnException(consumer, input, maxRetries)`: shape D with DEFAULT_SLEEP_MS and withoutDelay. */
  method ExecuteConsumerWithMaxRetries(op: nat -> Completion, maxRetries: Int32, interrupts: nat -> bool, wasInterrupted: bool)
    returns (calls: nat, sleeps: seq<int>, interrupted: bool)
    ensures Stops(op, ConsumerFails, calls, RetryTries(maxRetries))
    ensures |sleeps| == calls - 1 && forall j :: 0 <= j < |sleeps| ==> sleeps[j] == 500
    ensures interrupted == Interrupted(wasInterrupted, sleeps, interrupts)
  {
    calls, sleeps, interrupted := ExecuteConsumerWithSleep(op, DEFAULT_SLEEP_MS, maxRetries, interrupts, wasInterrupted);
  }

  /** `executeWithRetryOnException(consumer, input, sleepMs, maxRetries)`: shape D with withoutDelay
      and multiplier 1, so every request is sleepMs. */
  method ExecuteConsumerWithSleep(op: nat -> Completion, sleepMs: Int32, maxRetries: Int32,
                                  interrupts: nat -> bool, wasInterrupted: bool)
    returns (calls: nat, sleeps: seq<int>, interrupted: bool)
    ensures Stops(op, ConsumerFails, calls, RetryTries(maxRetries))
    ensures |sleeps| == calls - 1 && forall j :: 0 <= j < |sleeps| ==> sleeps[j] == sleepMs
    ensures interrupted == Interrupted(wasInterrupted, sleeps, interrupts)
  {
    calls, sleeps, interrupted := ExecuteConsumerWithRetries(op, sleepMs, WithoutDelay, 1, maxRetries, interrupts, wasInterrupted);
    WithoutDelayIsConstant(sleeps, calls - 1, sleepMs, 1);
  }

  /** `executeWithRetryOnExceptionWithProgressiveDelay(consumer, input, sleepMs, delayMultiplier, maxRetries)`:
      shape D with withMultipliedDelay. */
  method ExecuteConsumerWithProgressiveDelay(op: nat -> Completion, sleepMs: Int32, delayMultiplier: Int32, maxRetries: Int32,
                                             interrupts: nat -> bool, wasInterrupted: bool)
    returns (calls: nat, sleeps: seq<int>, interrupted: bool)
    ensures Stops(op, ConsumerFails, calls, RetryTries(maxRetries))
    ensures SleepLog(sleeps, calls - 1, sleepMs, WithMultipliedDelay, delayMultiplier)
    ensures interrupted == Interrupted(wasInterrupted, sleeps, interrupts)
  {
    calls, sleeps, interrupted :=
      ExecuteConsumerWithRetries(op, sleepMs, WithMultipliedDelay, delayMultiplier, maxRetries, interrupts, wasInterrupted);
  }

  /** The public `executeWithRetryOnExceptionWithProgressiveDelay(function, input, defaultValue, sleepMs,
      delayFunction, delayMultiplier, maxRetries)`: shape C without the null check, so a null
      result is returned as a success. */
  method ExecuteWithDelayFunction<T>(op: nat -> Outcome<T>, defaultValue: Nullable<T>, sleepMs: Int32,
                                     delay: DelayFunction, delayMultiplier: Int32, maxRetries: Int32,
                                     interrupts: nat -> bool, wasInterrupted: bool)
    returns (calls: nat, sleeps: seq<int>, interrupted: bool, result: Nullable<T>)
    ensures Stops(op, ThrowsOnly, calls, RetryTries(maxRetries))
    ensures result == if op(calls - 1).Throws? then defaultValue else op(calls - 1).result
    ensures SleepLog(sleeps, calls - 1, sleepMs, delay, delayMultiplier)
    ensures interrupted == Interrupted(wasInterrupted, sleeps, interrupts)
  {
    calls, sleeps, interrupted, result :=
      ExecuteWithRetryOnExceptionOrNull(op, defaultValue, sleepMs, delay, delayMultiplier, maxRetries, false,
                                        interrupts, wasInterrupted);
  }

  /** `executeWithRetryOnExceptionOrNullWithProgressiveDelay(function, input, defaultValue, sleepMs,
      delayMultiplier, maxRetries)`: shape C with the null check and withMultipliedDelay, so a null
      result is retried like an exception. */
  method ExecuteOrNullWithProgressiveDelay<T>(op: nat -> Outcome<T>, defaultValue: Nullable<T>, sleepMs: Int32,
                                              delayMultiplier: Int32, maxRetries: Int32,
                                              interrupts: nat -> bool, wasInterrupted: bool)
    returns (calls: nat, sleeps: seq<int>, interrupted: bool, result: Nullable<T>)
    ensures Stops(op, ThrowsOrNull, calls, RetryTries(maxRetries))
    ensures result == if ThrowsOrNull(op(calls - 1)) then defaultValue else op(calls - 1).result
    ensures calls < RetryTries(maxRetries) ==> result.NonNull?
    ensures SleepLog(sleeps, calls - 1, sleepMs, WithMultipliedDelay, delayMultiplier)
    ensures interrupted == Interrupted(wasInterrupted, sleeps, interrupts)
  {
    calls, sleeps, interrupted, result :=
      ExecuteWithRetryOnExceptionOrNull(op, defaultValue, sleepMs, WithMultipliedDelay, delayMultiplier, maxRetries, true,
                                        interrupts, wasInterrupted);
  }

  /** `executeWithRetryOnExceptionWithProgressiveDelay(function, input, defaultValue, sleepMs,
      delayMultiplier, maxRetries)`: shape C without the null check, with withMultipliedDelay. */
  method ExecuteWithProgressiveDelay<T>(op: nat -> Outcome<T>, defaultValue: Nullable<T>, sleepMs: Int32,
                                        delayMultiplier: Int32, maxRetries: Int32,
                                        interrupts: nat -> bool, wasInterrupted: bool)
    returns (calls: nat, sleeps: seq<int>, interrupted: bool, result: Nullable<T>)
    ensures Stops(op, ThrowsOnly, calls, RetryTries(maxRetries))
    ensures result == if op(calls - 1).Throws? then defaultValue else op(calls - 1).result
    ensures SleepLog(sleeps, calls - 1, sleepMs, WithMultipliedDelay, delayMultiplier)
    ensures interrupted == Interrupted(wasInterrupted, sleeps, interrupts)
  {
    calls, sleeps, interrupted, result :=
      ExecuteWithDelayFunction(op, defaultValue, sleepMs, WithMultipliedDelay, delayMultiplier, maxRetries,
                               interrupts, wasInterrupted);
  }

  /** `executeWithRetryOnException(function, input, defaultValue, sleepMs, maxRetries)`: shape C
      without the null check, with withoutDelay, so every request is sleepMs. */
  method ExecuteWithSleep<T>(op: nat -> Outcome<T>, defaultValue: Nullable<T>, sleepMs: Int32, maxRetries: Int32,
                             interrupts: nat -> bool, wasInterrupted: bool)
    returns (calls: nat, sleeps: seq<int>, interrupted: bool, result: Nullable<T>)
    ensures Stops(op, ThrowsOnly, calls, RetryTries(maxRetries))
    ensures result == if op(calls - 1).Throws? then defaultValue else op(calls - 1).result
    ensures |sleeps| == calls - 1 && forall j :: 0 <= j < |sleeps| ==> sleeps[j] == sleepMs
    ensures interrupted == Interrupted(wasInterrupted, sleeps, interrupts)
  {
    calls, sleeps, interrupted, result :=
      ExecuteWithDelayFunction(op, defaultValue, sleepMs, WithoutDelay, 1, maxRetries, interrupts, wasInterrupted);
    WithoutDelayIsConstant(sleeps, calls - 1, sleepMs, 1);
  }

  /** `executeWithRetryOnException(function, input, defaultValue, maxRetries)`: shape C without the
      null check, DEFAULT_SLEEP_MS and withoutDelay. */
  method ExecuteWithMaxRetries<T>(op: nat -> Outcome<T>, defaultValue: Nullable<T>, maxRetries: Int32,
                                  interrupts: nat -> bool, wasInterrupted: bool)
    returns (calls: nat, sleeps: seq<int>, interrupted: bool, result: Nullable<T>)
    ensures Stops(op, ThrowsOnly, calls, RetryTries(maxRetries))
    ensures result == if op(calls - 1).Throws? then defaultValue else op(calls - 1).result
    ensures |sleeps| == calls - 1 && forall j :: 0 <= j < |sleeps| ==> sleeps[j] == 500
    ensures interrupted == Interrupted(wasInterrupted, sleeps, interrupts)
  {
    calls, sleeps, interrupted, result :=
      ExecuteWithDelayFunction(op, defaultValue, DEFAULT_SLEEP_MS, WithoutDelay, 1, maxRetries, interrupts, wasInterrupted);
    WithoutDelayIsConstant(sleeps, calls - 1, DEFAULT_SLEEP_MS, 1);
  }

  /** `executeWithRetryOnException(function, input, defaultValue)`: as above with DEFAULT_RETRIES,
      so at most 11 calls. */
  method ExecuteWithDefaults<T>(op: nat -> Outcome<T>, defaultValue: Nullable<T>,
                                interrupts: nat -> bool, wasInterrupted: bool)
    returns (calls: nat, sleeps: seq<int>, interrupted: bool, result: Nullable<T>)
    ensures Stops(op, ThrowsOnly, calls, 11)
    ensures result == if op(calls - 1).Throws? then defaultValue else op(calls - 1).result
    ensures |sleeps| == calls - 1 && forall j :: 0 <= j < |sleeps| ==> sleeps[j] == 500
    ensures interrupted == Interrupted(wasInterrupted, sleeps, interrupts)
  {
    calls, sleeps, interrupted, result := ExecuteWithMaxRetries(op, defaultValue, DEFAULT_RETRIES, interrupts, wasInterrupted);
  }

  /** `executeWithRetryOnException(function, input, maxRetries)` for a List result: the default is
      a new empty list. */
  method ExecuteListWithMaxRetries<E>(op: nat -> Outcome<seq<E>>, maxRetries: Int32,
                                      interrupts: nat -> bool, wasInterrupted: bool)
    returns (calls: nat, sleeps: seq<int>, interrupted: bool, result: Nullable<seq<E>>)
    ensures Stops(op, ThrowsOnly, calls, RetryTries(maxRetries))
    ensures result == if op(calls - 1).Throws? then NonNull([]) else op(calls - 1).result
    ensures |sleeps| == calls - 1 && forall j :: 0 <= j < |sleeps| ==> sleeps[j] == 500
    ensures interrupted == Interrupted(wasInterrupted, sleeps, interrupts)
  {
    calls, sleeps, interrupted, result := ExecuteWithMaxRetries(op, NonNull([]), maxRetries, interrupts, wasInterrupted);
  }

  /** `executeWithRetryOnException(function, input)` for a List result: as above with DEFAULT_RETRIES. */
  method ExecuteList<E>(op: nat -> Outcome<seq<E>>, interrupts: nat -> bool, wasInterrupted: bool)
    returns (calls: nat, sleeps: seq<int>, interrupted: bool, result: Nullable<seq<E>>)
    ensures Stops(op, ThrowsOnly, calls, 11)
    ensures result == if op(calls - 1).Throws? then NonNull([]) else op(calls - 1).result
    ensures |sleeps| == calls - 1 && forall j :: 0 <= j < |sleeps| ==> sleeps[j] == 500
    ensures interrupted == Interrupted(wasInterrupted, sleeps, interrupts)
  {
    calls, sleeps, interrupted, result := ExecuteListWithMaxRetries(op, DEFAULT_RETRIES, interrupts, wasInterrupted);
  }

  /** `executeWithRetryOnException(biFunction, input1, input2, maxRetries)` for a List result:
      the BiFunction shape-C loop with a new empty list as the default. */
  method ExecuteBiListWithMaxRetries<E>(op: nat -> Outcome<seq<E>>, maxRetries: Int32,
                                        interrupts: nat -> bool, wasInterrupted: bool)
    returns (calls: nat, sleeps: seq<int>, interrupted: bool, result: Nullable<seq<E>>)
    ensures Stops(op, ThrowsOnly, calls, RetryTries(maxRetries))
    ensures result == if op(calls - 1).Throws? then NonNull([]) else op(calls - 1).result
    ensures LinearSleepLog(sleeps, calls - 1, DEFAULT_SLEEP_MS)
    ensures interrupted == Interrupted(wasInterrupted, sleeps, interrupts)
  {
    calls, sleeps, interrupted, result := ExecuteWithRetryOnExceptionBi(op, NonNull([]), maxRetries, interrupts, wasInterrupted);
  }

  /** `executeWithRetryOnException(biFunction, input1, input2)` for a List result: as above with DEFAULT_RETRIES. */
  method ExecuteBiList<E>(op: nat -> Outcome<seq<E>>, interrupts: nat -> bool, wasInterrupted: bool)
    returns (calls: nat, sleeps: seq<int>, interrupted: bool, result: Nullable<seq<E>>)
    ensures Stops(op, ThrowsOnly, calls, 11)
    ensures result == if op(calls - 1).Throws? then NonNull([]) else op(calls - 1).result
    ensures |sleeps| == calls - 1 && forall j :: 0 <= j < |sleeps| ==> sleeps[j] == 500 * (j + 1)
    ensures interrupted == Interrupted(wasInterrupted, sleeps, interrupts)
  {
    calls, sleeps, interrupted, result := ExecuteBiListWithMaxRetries(op, DEFAULT_RETRIES, interrupts, wasInterrupted);
  }

  /** `executeWithRetryThrowingException(function, input, defaultValue, maxRetries)`: shape B with DEFAULT_SLEEP_MS. */
  method ExecuteThrowingWithMaxRetries<T>(op: nat -> Outcome<T>, defaultValue: Nullable<T>, maxRetries: Int32,
                                          interrupts: nat -> bool, wasInterrupted: bool)
    returns (calls: nat, sleeps: seq<int>, interrupted: bool, result: Exit<Nullable<T>>)
    ensures Stops(op, ThrowsOnly, calls, RetryTries(maxRetries))
    ensures result == ThrowingExit(op(calls - 1))
    ensures LinearSleepLog(sleeps, calls - 1, DEFAULT_SLEEP_MS)
    ensures interrupted == Interrupted(wasInterrupted, sleeps, interrupts)
  {
    calls, sleeps, interrupted, result :=
      ExecuteWithRetryThrowingException(op, defaultValue, maxRetries, DEFAULT_SLEEP_MS, interrupts, wasInterrupted);
  }

  /** `executeWithRetryThrowingException(function, input, defaultValue)`: shape B with DEFAULT_RETRIES
      and DEFAULT_SLEEP_MS: at most 11 calls, the request before retry r being 500 * r. */
  method ExecuteThrowingWithDefaults<T>(op: nat -> Outcome<T>, defaultValue: Nullable<T>,
                                        interrupts: nat -> bool, wasInterrupted: bool)
    returns (calls: nat, sleeps: seq<int>, interrupted: bool, result: Exit<Nullable<T>>)
    ensures Stops(op, ThrowsOnly, calls, 11)
    ensures result == ThrowingExit(op(calls - 1))
    ensures |sleeps| == calls - 1 && forall j :: 0 <= j < |sleeps| ==> sleeps[j] == 500 * (j + 1)
    ensures interrupted == Interrupted(wasInterrupted, sleeps, interrupts)
  {
    calls, sleeps, interrupted, result := ExecuteThrowingWithMaxRetries(op, defaultValue, DEFAULT_RETRIES, interrupts, wasInterrupted);
  }

  /** `executeWithRetryThrowingException(biFunction, input1, input2, defaultValue)`: the BiFunction
      shape-B loop with DEFAULT_RETRIES. */
  method ExecuteThrowingBiWithDefaults<T>(op: nat -> Outcome<T>, defaultValue: Nullable<T>,
                                          interrupts: nat -> bool, wasInterrupted: bool)
    returns (calls: nat, sleeps: seq<int>, interrupted: bool, result: Exit<Nullable<T>>)
    ensures Stops(op, ThrowsOnly, calls, 11)
    ensures result == ThrowingExit(op(calls - 1))
    ensures |sleeps| == calls - 1 && forall j :: 0 <= j < |sleeps| ==> sleeps[j] == 500 * (j + 1)
    ensures interrupted == Interrupted(wasInterrupted, sleeps, interrupts)
  {
    calls, sleeps, interrupted, result := ExecuteWithRetryThrowingExceptionBi(op, defaultValue, DEFAULT_RETRIES, interrupts, wasInterrupted);
  }
}
