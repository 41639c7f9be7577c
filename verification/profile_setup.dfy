/**
 Registration with the host's platform-profile framework, retried with a bounded
 exponential backoff. Sleeping is not modelled; the delays the loop would sleep are
 returned instead.
 */
module ProfileSetup {
  import opened Acpi
  import opened Quirks

  const MaxRetries: nat := 10
  const InitialDelayMs: nat := 100
  const MaxDelayMs: nat := 1000

  /** What one registration attempt returned. */
  datatype Registration = Registered | RegistrationFailed(err: Errno)

  function Pow2(n: nat): (r: nat)
    ensures r >= 1
  {
    if n == 0 then 1 else 2 * Pow2(n - 1)
  }

  /** The delay slept after the (i+1)-th failed attempt: 100 ms doubled i times,
      capped at 1000 ms. */
  function BackoffDelay(i: nat): nat {
    var d := InitialDelayMs * Pow2(i);
    if d < MaxDelayMs then d else MaxDelayMs
  }

  /** One doubling step of the loop's `delay_ms = min(delay_ms * 2, 1000)`. */
  lemma BackoffStep(i: nat)
    ensures (if BackoffDelay(i) * 2 < MaxDelayMs then BackoffDelay(i) * 2 else MaxDelayMs) == BackoffDelay(i + 1)
  {
  }

  /** The schedule: 100, 200, 400, 800, and 1000 for every later gap. */
  lemma {:induction false} BackoffSchedule(i: nat)
    ensures i == 0 ==> BackoffDelay(i) == 100
    ensures i == 1 ==> BackoffDelay(i) == 200
    ensures i == 2 ==> BackoffDelay(i) == 400
    ensures i == 3 ==> BackoffDelay(i) == 800
    ensures i >= 4 ==> BackoffDelay(i) == 1000
  {
    if i >= 4 {
      Pow2AtLeast16(i);
    } else {
      assert Pow2(3) == 8 && Pow2(2) == 4 && Pow2(1) == 2 && Pow2(0) == 1;
    }
  }

  lemma {:induction false} Pow2AtLeast16(i: nat)
    requires i >= 4
    ensures Pow2(i) >= 16
  {
    if i == 4 {
      assert Pow2(4) == 2 * Pow2(3) == 4 * Pow2(2) == 8 * Pow2(1) == 16 * Pow2(0);
    } else {
      Pow2AtLeast16(i - 1);
    }
  }

  /** `acer_platform_profile_setup`, given what each of the (at most ten) registration
      attempts would return. Returns the result, whether registration succeeded, the
      number of attempts made, and the delays slept between attempts. */
  method PlatformProfileSetup(q: QuirkEntry, outcomes: seq<Registration>)
    returns (ret: int, registered: bool, attempts: nat, sleeps: seq<nat>)
    requires |outcomes| == MaxRetries
    ensures !HasSystemControlMode(q) ==> ret == 0 && !registered && attempts == 0 && sleeps == []
    ensures HasSystemControlMode(q) ==> 1 <= attempts <= MaxRetries
    // attempts stop at the first success, and no earlier attempt succeeded
    ensures HasSystemControlMode(q) ==>
      (registered <==> outcomes[attempts - 1].Registered?)
      && forall i :: 0 <= i < attempts - 1 ==> outcomes[i].RegistrationFailed?
    ensures registered ==> ret == 0
    // when every attempt fails, all ten are made and the last error is returned
    ensures HasSystemControlMode(q) && !registered ==>
      attempts == MaxRetries && ret == outcomes[MaxRetries - 1].err
    // one sleep between consecutive attempts, none after the last
    ensures HasSystemControlMode(q) ==> |sleeps| == attempts - 1
    ensures forall i :: 0 <= i < |sleeps| ==> sleeps[i] == BackoffDelay(i)
  {
    if !HasSystemControlMode(q) {
      return 0, false, 0, [];
    }
    var delayMs := InitialDelayMs;
    var attempt := 1;
    registered, attempts, sleeps := false, 0, [];
    var last: Registration := outcomes[0];
    while attempt <= MaxRetries
      invariant 1 <= attempt <= MaxRetries + 1
      invariant attempts == attempt - 1
      invariant !registered
      invariant forall i :: 0 <= i < attempt - 1 ==> outcomes[i].RegistrationFailed?
      invariant attempt > 1 ==> last == outcomes[attempt - 2]
      invariant |sleeps| == if attempt == MaxRetries + 1 then MaxRetries - 1 else attempt - 1
      invariant forall i :: 0 <= i < |sleeps| ==> sleeps[i] == BackoffDelay(i)
      invariant delayMs == BackoffDelay(attempt - 1)
      decreases MaxRetries + 1 - attempt
    {
      last := outcomes[attempt - 1];
      attempts := attempt;
      if last.Registered? {
        return 0, true, attempts, sleeps;
      }
      if attempt < MaxRetries {
        sleeps := sleeps + [delayMs];
        BackoffStep(attempt - 1);
        delayMs := if delayMs * 2 < MaxDelayMs then delayMs * 2 else MaxDelayMs;
      }
      attempt := attempt + 1;
    }
    ret := last.err;
  }

  /** When every attempt fails, the loop sleeps nine times, 6.5 seconds in all. */
  lemma FullScheduleTotal()
    ensures BackoffDelay(0) + BackoffDelay(1) + BackoffDelay(2) + BackoffDelay(3)
          + BackoffDelay(4) + BackoffDelay(5) + BackoffDelay(6) + BackoffDelay(7) + BackoffDelay(8) == 6500
  {
    BackoffSchedule(0); BackoffSchedule(1); BackoffSchedule(2); BackoffSchedule(3);
    BackoffSchedule(4); BackoffSchedule(5); BackoffSchedule(6); BackoffSchedule(7); BackoffSchedule(8);
  }
}
