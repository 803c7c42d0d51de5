/** The retry loop around provider calls.  A run lists what happens to it: cancellations, the
    outcome of every call, and cancellations while waiting; delays themselves are not modelled. */
module RetryLoop {
  import opened Sequences

  const U32_MAX: nat := 0xffff_ffff

  datatype Outcome<T, E> = Success(value: T) | CallCancelled | Provider(error: E) | Other(message: string)

  /** One round: cancellation before the call, the call's outcome, cancellation in the wait. */
  datatype Round<T, E> = Round(cancelled: bool, outcome: Outcome<T, E>, cancelledInWait: bool)

  datatype Reason = MaxRetriesExceeded | ErrorNotRetryable | Abort

  datatype Ending<T, E> =
    | Done(value: T)
    | Cancelled
    | ProviderFailure(error: E)
    | OtherFailure(message: string)
    | RetryFailure(reason: Reason, attempts: nat, errors: seq<E>)
    | InvalidPolicy
    | Running(errors: seq<E>)

  /** `validFactor` tells whether the backoff factor is finite and not negative. */
  datatype Policy = Policy(maxRetries: nat, validFactor: bool)

  predicate IsPolicy(policy: Policy) {
    policy.maxRetries <= U32_MAX
  }

  function Saturated(n: nat): nat {
    if n > U32_MAX then U32_MAX else n
  }

  function AbortError<T, E>(errors: seq<E>): Ending<T, E> {
    if errors == [] then Cancelled else RetryFailure(Abort, Saturated(|errors|), errors)
  }

  /** What the loop comes to, with the errors so far and the rounds to come. */
  function RetryFrom<T, E>(policy: Policy, retryable: E -> bool, errors: seq<E>, rounds: seq<Round<T, E>>): Ending<T, E>
    decreases |rounds|
  {
    if rounds == [] then Running(errors)
    else if rounds[0].cancelled then AbortError(errors)
    else
      match rounds[0].outcome
      case Success(value) => Done(value)
      case CallCancelled => AbortError(errors)
      case Other(message) => OtherFailure(message)
      case Provider(error) =>
        var attempts, all := Saturated(Saturated(|errors|) + 1), errors + [error];
        if policy.maxRetries == 0 then ProviderFailure(error)
        else if attempts > policy.maxRetries then RetryFailure(MaxRetriesExceeded, attempts, all)
        else if !retryable(error) then
          if attempts == 1 then ProviderFailure(error) else RetryFailure(ErrorNotRetryable, attempts, all)
        else if rounds[0].cancelledInWait then RetryFailure(Abort, attempts, all)
        else RetryFrom(policy, retryable, all, rounds[1..])
  }

  /** How many calls the loop makes. */
  function Calls<T, E>(policy: Policy, retryable: E -> bool, errors: seq<E>, rounds: seq<Round<T, E>>): (n: nat)
    ensures n <= |rounds|
    decreases |rounds|
  {
    if rounds == [] || rounds[0].cancelled then 0
    else if Continues(policy, retryable, errors, rounds[0]) then
      1 + Calls(policy, retryable, errors + [rounds[0].outcome.error], rounds[1..])
    else 1
  }

  /** The loop goes on after this round. */
  predicate Continues<T, E>(policy: Policy, retryable: E -> bool, errors: seq<E>, round: Round<T, E>) {
    && !round.cancelled && round.outcome.Provider? && retryable(round.outcome.error) && !round.cancelledInWait
    && policy.maxRetries > 0 && Saturated(Saturated(|errors|) + 1) <= policy.maxRetries
  }

  /** Runs an operation with retries, as far as the rounds go. */
  method RetryWith<T, E>(policy: Policy, retryable: E -> bool, rounds: seq<Round<T, E>>)
      returns (ending: Ending<T, E>, calls: nat)
    requires IsPolicy(policy)
    ensures !policy.validFactor ==> ending == InvalidPolicy && calls == 0
    ensures policy.validFactor ==>
      ending == RetryFrom(policy, retryable, [], rounds) && calls == Calls(policy, retryable, [], rounds)
  {
    calls := 0;
    if !policy.validFactor {
      return InvalidPolicy, calls;
    }
    var errors: seq<E> := [];
    var i := 0;
    assert rounds[0..] == rounds;
    while i < |rounds|
      invariant 0 <= i <= |rounds|
      invariant RetryFrom(policy, retryable, errors, rounds[i..]) == RetryFrom(policy, retryable, [], rounds)
      invariant calls + Calls(policy, retryable, errors, rounds[i..]) == Calls(policy, retryable, [], rounds)
    {
      var round := rounds[i];
      assert rounds[i..][0] == round && rounds[i..][1..] == rounds[i + 1..];
      if round.cancelled {
        return AbortError(errors), calls;
      }
      var attempt := Saturated(|errors|);
      calls := calls + 1;
      match round.outcome {
        case Success(value) =>
          return Done(value), calls;
        case CallCancelled =>
          return AbortError(errors), calls;
        case Provider(error) =>
          if policy.maxRetries == 0 {
            return ProviderFailure(error), calls;
          }
          var retryNumber := Saturated(attempt + 1);
          var retries := retryNumber <= policy.maxRetries && retryable(error);
          errors := errors + [error];
          if retryNumber > policy.maxRetries {
            return RetryFailure(MaxRetriesExceeded, retryNumber, errors), calls;
          }
          if !retries {
            if retryNumber == 1 {
              return ProviderFailure(error), calls;
            }
            return RetryFailure(ErrorNotRetryable, retryNumber, errors), calls;
          }
          if round.cancelledInWait {
            return RetryFailure(Abort, retryNumber, errors), calls;
          }
        case Other(message) =>
          return OtherFailure(message), calls;
      }
      i := i + 1;
    }
    ending := Running(errors);
  }

  // ----- What every run keeps

  /** The provider errors of the rounds, in order. */
  function ErrorsOf<T, E>(rounds: seq<Round<T, E>>): seq<E> {
    if rounds == [] then []
    else (if rounds[0].outcome.Provider? then [rounds[0].outcome.error] else []) + ErrorsOf(rounds[1..])
  }

  /** Every error but possibly the last is retryable. */
  predicate RetryableButLast<E>(retryable: E -> bool, errors: seq<E>) {
    forall i :: 0 <= i < |errors| - 1 ==> retryable(errors[i])
  }

  /** What a retry failure must say, given the errors of the calls. */
  ghost predicate Explains<T, E>(policy: Policy, retryable: E -> bool, ending: Ending<T, E>, errors: seq<E>) {
    ending.RetryFailure? ==>
      && ending.errors == errors && errors != [] && ending.attempts == |errors| <= policy.maxRetries + 1
      && RetryableButLast(retryable, errors)
      && (ending.reason == MaxRetriesExceeded <==> |errors| == policy.maxRetries + 1)
      && (ending.reason == ErrorNotRetryable <==> |errors| <= policy.maxRetries && !retryable(errors[|errors| - 1]))
  }

  lemma RoundErrors<T, E>(errors: seq<E>, rounds: seq<Round<T, E>>, n: nat)
    requires 0 < n <= |rounds| && rounds[0].outcome.Provider?
    ensures errors + ErrorsOf(rounds[..n]) == (errors + [rounds[0].outcome.error]) + ErrorsOf(rounds[1..][..n - 1])
  {
    assert rounds[..n][1..] == rounds[1..][..n - 1];
    Cat2(errors, [rounds[0].outcome.error], ErrorsOf(rounds[1..][..n - 1]));
  }

  lemma NoErrors<T, E>(errors: seq<E>, round: Round<T, E>, rounds: seq<Round<T, E>>)
    requires rounds != [] && rounds[0] == round && !round.outcome.Provider?
    ensures errors + ErrorsOf(rounds[..1]) == errors
  {
    assert rounds[..1][1..] == [];
  }

  /** Under a limit below the largest count, the loop stops in time and reports faithfully. */
  lemma {:induction false} LoopKeeps<T, E>(policy: Policy, retryable: E -> bool, errors: seq<E>,
                                           rounds: seq<Round<T, E>>)
    requires policy.maxRetries < U32_MAX && |errors| <= policy.maxRetries
    requires forall i :: 0 <= i < |errors| ==> retryable(errors[i])
    ensures var n := Calls(policy, retryable, errors, rounds);
      && |errors| + n <= policy.maxRetries + 1
      && Explains(policy, retryable, RetryFrom(policy, retryable, errors, rounds), errors + ErrorsOf(rounds[..n]))
    decreases |rounds|
  {
    var n := Calls(policy, retryable, errors, rounds);
    if rounds == [] || rounds[0].cancelled {
      assert rounds[..0] == [] && errors + [] == errors;
    } else if rounds[0].outcome.Provider? {
      var all := errors + [rounds[0].outcome.error];
      RoundErrors(errors, rounds, n);
      if Continues(policy, retryable, errors, rounds[0]) {
        LoopKeeps(policy, retryable, all, rounds[1..]);
      } else {
        assert rounds[1..][..0] == [] && all + [] == all;
      }
    } else {
      NoErrors(errors, rounds[0], rounds);
    }
  }

  /** A run of the loop: at most one call more than the retries allowed, and a retry failure that
      lists the calls' provider errors in order, all retryable but possibly the last. */
  lemma RunKeeps<T, E>(policy: Policy, retryable: E -> bool, rounds: seq<Round<T, E>>)
    requires policy.maxRetries < U32_MAX
    ensures var n := Calls(policy, retryable, [], rounds);
      && n <= policy.maxRetries + 1
      && Explains(policy, retryable, RetryFrom(policy, retryable, [], rounds), ErrorsOf(rounds[..n]))
  {
    LoopKeeps(policy, retryable, [], rounds);
    var n := Calls(policy, retryable, [], rounds);
    assert [] + ErrorsOf(rounds[..n]) == ErrorsOf(rounds[..n]);
  }

  // ----- What a run comes to, by the positions of its rounds

  /** The round was called, failed with a retryable provider error within the limit, and nothing
      cancelled the wait after it; the largest limit never runs out. */
  predicate GoesOn<T, E>(policy: Policy, retryable: E -> bool, rounds: seq<Round<T, E>>, i: nat)
    requires i < |rounds|
  {
    && !rounds[i].cancelled && rounds[i].outcome.Provider? && retryable(rounds[i].outcome.error)
    && !rounds[i].cancelledInWait && policy.maxRetries > 0 && (i < policy.maxRetries || policy.maxRetries == U32_MAX)
  }

  /** No cancellation comes before the call, and every earlier round went on. */
  predicate IsCalled<T, E>(policy: Policy, retryable: E -> bool, rounds: seq<Round<T, E>>, i: nat) {
    i < |rounds| && !rounds[i].cancelled && forall j: nat :: j < i ==> GoesOn(policy, retryable, rounds, j)
  }

  /** The provider's error in the last of `n` calls. */
  predicate FailedLast<T, E>(rounds: seq<Round<T, E>>, n: nat) {
    0 < n <= |rounds| && rounds[n - 1].outcome.Provider?
  }

  predicate IsAborted<T, E>(ending: Ending<T, E>) {
    ending.Cancelled? || (ending.RetryFailure? && ending.reason == Abort)
  }

  /** A cancellation came before the next call, during the last, or in the wait after it. */
  predicate WasCancelled<T, E>(policy: Policy, retryable: E -> bool, rounds: seq<Round<T, E>>, n: nat)
    requires n <= |rounds|
  {
    || (n < |rounds| && rounds[n].cancelled && (n > 0 ==> GoesOn(policy, retryable, rounds, n - 1)))
    || (n > 0 && rounds[n - 1].outcome.CallCancelled?)
    || (FailedLast(rounds, n) && retryable(rounds[n - 1].outcome.error) && rounds[n - 1].cancelledInWait
        && policy.maxRetries > 0 && (n <= policy.maxRetries || policy.maxRetries == U32_MAX))
  }

  /** The rounds from `k` on, with the errors of those before, are where the run stands. */
  ghost predicate IsAt<T, E>(policy: Policy, retryable: E -> bool, rounds: seq<Round<T, E>>, k: nat, errors: seq<E>) {
    && k <= |rounds| && |errors| == k
    && forall j: nat :: j < k ==> GoesOn(policy, retryable, rounds, j) && errors[j] == rounds[j].outcome.error
  }

  /** What the ending says of the calls made, the last being the `n`th. */
  ghost predicate EndsAs<T, E>(policy: Policy, retryable: E -> bool, rounds: seq<Round<T, E>>, n: nat,
                         ending: Ending<T, E>)
    requires n <= |rounds|
  {
    && (ending.Done? <==> n > 0 && rounds[n - 1].outcome.Success?)
    && (ending.Done? ==> rounds[n - 1].outcome == Success(ending.value))
    && (ending.OtherFailure? <==> n > 0 && rounds[n - 1].outcome.Other?)
    && (ending.OtherFailure? ==> rounds[n - 1].outcome == Other(ending.message))
    && (ending.ProviderFailure? <==>
          FailedLast(rounds, n) && (policy.maxRetries == 0 || (n == 1 && !retryable(rounds[0].outcome.error))))
    && (ending.ProviderFailure? ==> rounds[n - 1].outcome == Provider(ending.error))
    && (IsAborted(ending) <==> WasCancelled(policy, retryable, rounds, n))
    && (ending.RetryFailure? && ending.reason == MaxRetriesExceeded <==>
          FailedLast(rounds, n) && 0 < policy.maxRetries < n && policy.maxRetries < U32_MAX)
    && (ending.RetryFailure? && ending.reason == ErrorNotRetryable <==>
          && FailedLast(rounds, n) && n > 1 && policy.maxRetries > 0
          && (n <= policy.maxRetries || policy.maxRetries == U32_MAX) && !retryable(rounds[n - 1].outcome.error))
    && (ending.Running? <==> n == |rounds| && forall j: nat :: j < n ==> GoesOn(policy, retryable, rounds, j))
    && !ending.InvalidPolicy?
  }

  /** The errors an ending lists are those of the calls, in order. */
  ghost predicate Lists<T, E>(rounds: seq<Round<T, E>>, n: nat, ending: Ending<T, E>)
    requires n <= |rounds|
  {
    match ending
    case RetryFailure(_, attempts, errors) =>
      && errors != [] && attempts == (if |errors| < U32_MAX then |errors| else U32_MAX)
      && |errors| == (if FailedLast(rounds, n) then n else n - 1)
      && forall j :: 0 <= j < |errors| ==> rounds[j].outcome == Provider(errors[j])
    case Running(errors) =>
      |errors| == n && forall j :: 0 <= j < n ==> rounds[j].outcome == Provider(errors[j])
    case Cancelled => forall j :: 0 <= j < n ==> !rounds[j].outcome.Provider?
    case _ => true
  }

  /** Where the run does not go on, it made this many calls. */
  lemma StopCalls<T, E>(policy: Policy, retryable: E -> bool, rounds: seq<Round<T, E>>, k: nat, errors: seq<E>)
    requires IsPolicy(policy) && IsAt(policy, retryable, rounds, k, errors)
    requires k < |rounds| ==> !GoesOn(policy, retryable, rounds, k)
    ensures var n := k + Calls(policy, retryable, errors, rounds[k..]);
      && n == (if k == |rounds| || rounds[k].cancelled then k else k + 1)
      && forall i: nat :: i < n <==> IsCalled(policy, retryable, rounds, i)
  {
    if k < |rounds| {
      assert rounds[k..][0] == rounds[k];
      forall i: nat
        ensures k < i ==> !IsCalled(policy, retryable, rounds, i)
      {
      }
    }
  }

  lemma StopEnds<T, E>(policy: Policy, retryable: E -> bool, rounds: seq<Round<T, E>>, k: nat, errors: seq<E>)
    requires IsPolicy(policy) && IsAt(policy, retryable, rounds, k, errors)
    requires k < |rounds| ==> !GoesOn(policy, retryable, rounds, k)
    ensures var n := if k == |rounds| || rounds[k].cancelled then k else k + 1;
      EndsAs(policy, retryable, rounds, n, RetryFrom(policy, retryable, errors, rounds[k..]))
  {
    if k < |rounds| {
      assert rounds[k..][0] == rounds[k];
    }
    hide Saturated;
    SaturatedIs(k);
  }

  lemma SaturatedIs(k: nat)
    ensures Saturated(k) == (if k < U32_MAX then k else U32_MAX)
    ensures Saturated(Saturated(k) + 1) == if k + 1 < U32_MAX then k + 1 else U32_MAX
  {
  }

  lemma StopLists<T, E>(policy: Policy, retryable: E -> bool, rounds: seq<Round<T, E>>, k: nat, errors: seq<E>)
    requires IsPolicy(policy) && IsAt(policy, retryable, rounds, k, errors)
    requires k < |rounds| ==> !GoesOn(policy, retryable, rounds, k)
    ensures var n := if k == |rounds| || rounds[k].cancelled then k else k + 1;
      Lists(rounds, n, RetryFrom(policy, retryable, errors, rounds[k..]))
  {
    if k < |rounds| {
      assert rounds[k..][0] == rounds[k];
    }
    hide Saturated;
    SaturatedIs(k);
  }

  /** Where the run does not go on, it ends. */
  lemma StopsAt<T, E>(policy: Policy, retryable: E -> bool, rounds: seq<Round<T, E>>, k: nat, errors: seq<E>)
    requires IsPolicy(policy) && IsAt(policy, retryable, rounds, k, errors)
    requires k < |rounds| ==> !GoesOn(policy, retryable, rounds, k)
    ensures var n := k + Calls(policy, retryable, errors, rounds[k..]);
      var ending := RetryFrom(policy, retryable, errors, rounds[k..]);
      && n <= |rounds| && (forall i: nat :: i < n <==> IsCalled(policy, retryable, rounds, i))
      && EndsAs(policy, retryable, rounds, n, ending) && Lists(rounds, n, ending)
  {
    StopCalls(policy, retryable, rounds, k, errors);
    StopEnds(policy, retryable, rounds, k, errors);
    StopLists(policy, retryable, rounds, k, errors);
    hide EndsAs, Lists, IsCalled, GoesOn;
  }

  lemma GoesOnHere<T, E>(policy: Policy, retryable: E -> bool, rounds: seq<Round<T, E>>, k: nat, errors: seq<E>)
    requires IsPolicy(policy) && IsAt(policy, retryable, rounds, k, errors)
    requires k < |rounds| && GoesOn(policy, retryable, rounds, k)
    ensures var all := errors + [rounds[k].outcome.error];
      && IsAt(policy, retryable, rounds, k + 1, all)
      && Calls(policy, retryable, errors, rounds[k..]) == 1 + Calls(policy, retryable, all, rounds[k + 1..])
      && RetryFrom(policy, retryable, errors, rounds[k..]) == RetryFrom(policy, retryable, all, rounds[k + 1..])
  {
    assert rounds[k..][0] == rounds[k] && rounds[k..][1..] == rounds[k + 1..];
  }

  lemma {:induction false} EndsFrom<T, E>(policy: Policy, retryable: E -> bool, rounds: seq<Round<T, E>>, k: nat,
                                          errors: seq<E>)
    requires IsPolicy(policy) && IsAt(policy, retryable, rounds, k, errors)
    ensures var n := k + Calls(policy, retryable, errors, rounds[k..]);
      var ending := RetryFrom(policy, retryable, errors, rounds[k..]);
      && n <= |rounds| && (forall i: nat :: i < n <==> IsCalled(policy, retryable, rounds, i))
      && EndsAs(policy, retryable, rounds, n, ending) && Lists(rounds, n, ending)
    decreases |rounds| - k
  {
    if k < |rounds| && GoesOn(policy, retryable, rounds, k) {
      var all := errors + [rounds[k].outcome.error];
      GoesOnHere(policy, retryable, rounds, k, errors);
      hide *;
      EndsFrom(policy, retryable, rounds, k + 1, all);
    } else {
      StopsAt(policy, retryable, rounds, k, errors);
    }
  }

  /** A run calls exactly the rounds that no cancellation precedes and that follow retryable provider
      errors within the limit only, and its ending says what the last call and the cancellations
      came to. */
  lemma RunEnds<T, E>(policy: Policy, retryable: E -> bool, rounds: seq<Round<T, E>>)
    requires IsPolicy(policy)
    ensures var n, ending := Calls(policy, retryable, [], rounds), RetryFrom(policy, retryable, [], rounds);
      && (forall i: nat :: i < n <==> IsCalled(policy, retryable, rounds, i))
      && EndsAs(policy, retryable, rounds, n, ending) && Lists(rounds, n, ending)
  {
    assert rounds[0..] == rounds;
    EndsFrom(policy, retryable, rounds, 0, []);
    hide EndsAs, Lists, IsCalled;
  }

  function Failures<T, E>(error: E, n: nat): seq<Round<T, E>> {
    seq(n, _ => Round(false, Provider(error), false))
  }

  /** With the largest limit the count saturates and the loop never stops by itself. */
  lemma {:induction false} LargestLimitNeverStops<T, E>(policy: Policy, retryable: E -> bool, errors: seq<E>,
      error: E, n: nat)
    requires policy.maxRetries == U32_MAX && retryable(error)
    ensures var rounds: seq<Round<T, E>> := Failures(error, n);
      Calls(policy, retryable, errors, rounds) == n && RetryFrom(policy, retryable, errors, rounds).Running?
    decreases n
  {
    if n > 0 {
      var rounds: seq<Round<T, E>> := Failures(error, n);
      assert rounds[1..] == Failures<T, E>(error, n - 1);
      LargestLimitNeverStops<T, E>(policy, retryable, errors + [error], error, n - 1);
    }
  }
}
