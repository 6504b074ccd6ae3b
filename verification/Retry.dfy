/** The schedule of attach attempts: delays that grow up to a limit, and a budget for one attach request. */
module Retry {
  import opened Wrappers

  const HOUR := 3600
  const DEF_FIRST_DELAY := 30
  const DEF_MAX_DELAY := 480
  const DEF_MAX_ATTEMPTS := 20
  const MAX_TOTAL_DELAY := 72 * HOUR
  const START_DELAY := 30  // after the device has been plugged out

  type Word = x: int | 0 <= x < 0x1_0000_0000

  /** get_next_delay */
  function NextDelay(delay: Word, maxDelay: Word): (next: Word)
    requires 1 <= delay <= maxDelay
    ensures delay <= next <= maxDelay
    ensures next == delay <==> delay == maxDelay || delay == 1
    ensures delay < maxDelay && next < maxDelay ==> 3 * delay as int - 1 <= 2 * next as int <= 3 * delay as int
    ensures delay < maxDelay && next == maxDelay ==> 2 * maxDelay as int <= 3 * delay as int
  {
    if delay == maxDelay then delay
    else
      var next := 3 * delay as int / 2;
      if next < maxDelay then next else maxDelay
  }

  /** The delay before attempt k, counted from zero. */
  function Delay(first: Word, maxDelay: Word, k: nat): (d: Word)
    requires 1 <= first <= maxDelay
    ensures first <= d <= maxDelay
  {
    if k == 0 then first else NextDelay(Delay(first, maxDelay, k - 1), maxDelay)
  }

  /** How long the first n delays take together. */
  function Total(first: Word, maxDelay: Word, n: nat): (t: nat)
    requires 1 <= first <= maxDelay
    ensures n <= t
  {
    if n == 0 then 0 else Total(first, maxDelay, n - 1) + Delay(first, maxDelay, n - 1) as int
  }

  lemma {:induction false} DelaysNeverShrink(first: Word, maxDelay: Word, i: nat, j: nat)
    requires 1 <= first <= maxDelay && i <= j
    ensures Delay(first, maxDelay, i) <= Delay(first, maxDelay, j)
  {
    if i < j {
      DelaysNeverShrink(first, maxDelay, i, j - 1);
    }
  }

  lemma {:induction false} TotalGrows(first: Word, maxDelay: Word, i: nat, j: nat)
    requires 1 <= first <= maxDelay && i < j
    ensures Total(first, maxDelay, i) < Total(first, maxDelay, j)
  {
    if i + 1 < j {
      TotalGrows(first, maxDelay, i, j - 1);
    }
  }

  lemma {:induction false} DelayCatchesUp(first: Word, maxDelay: Word, k: nat)
    requires 2 <= first <= maxDelay
    ensures Delay(first, maxDelay, k) == maxDelay || Delay(first, maxDelay, k) as int >= first as int + k
  {
    if k > 0 {
      DelayCatchesUp(first, maxDelay, k - 1);
    }
  }

  lemma {:induction false} OneSecondStays(maxDelay: Word, k: nat)
    requires 1 < maxDelay
    ensures Delay(1, maxDelay, k) == 1
  {
    if k > 0 {
      OneSecondStays(maxDelay, k - 1);
    }
  }

  /** The delays reach the limit exactly if they do not start at one second below it: half of three
      seconds, rounded down, is one second again. */
  lemma ReachesTheLimitExactlyFromTwo(first: Word, maxDelay: Word)
    requires 1 <= first <= maxDelay
    ensures (exists k :: Delay(first, maxDelay, k) == maxDelay) <==> first >= 2 || first == maxDelay
  {
    if first >= 2 {
      DelayCatchesUp(first, maxDelay, maxDelay as int);
      assert Delay(first, maxDelay, maxDelay as int) == maxDelay;
    } else if first == maxDelay {
      assert Delay(first, maxDelay, 0) == maxDelay;
    } else {
      forall k: nat ensures Delay(first, maxDelay, k) != maxDelay {
        OneSecondStays(maxDelay, k);
      }
    }
  }

  /** get_max_attach_attempts; the running total is 32 bits wide and does not wrap. */
  method GetMaxAttachAttempts(first: Word, maxDelay: Word, maxTotal: Word) returns (cnt: Word)
    requires 1 <= first <= maxDelay && maxTotal as int + maxDelay as int < 0x1_0000_0000
    ensures Total(first, maxDelay, cnt as int) <= maxTotal as int < Total(first, maxDelay, cnt as int + 1)
  {
    cnt := 0;
    var delay, total: Word := first, 0;
    while true
      invariant delay == Delay(first, maxDelay, cnt as int)
      invariant total as int == Total(first, maxDelay, cnt as int) <= maxTotal as int
      decreases maxTotal - total
    {
      total := total + delay;
      if total > maxTotal {
        break;
      }
      delay := NextDelay(delay, maxDelay);
      cnt := cnt + 1;
    }
  }

  /** There is one such count: all shorter runs of delays fit, no longer one does. */
  lemma LargestCountThatFits(first: Word, maxDelay: Word, maxTotal: nat, cnt: nat, n: nat)
    requires 1 <= first <= maxDelay
    requires Total(first, maxDelay, cnt) <= maxTotal < Total(first, maxDelay, cnt + 1)
    ensures Total(first, maxDelay, n) <= maxTotal <==> n <= cnt
  {
    if n < cnt {
      TotalGrows(first, maxDelay, n, cnt);
    } else if n > cnt + 1 {
      TotalGrows(first, maxDelay, cnt + 1, n);
    }
  }

  /** Twenty attempts are what fits two hours with the default delays. */
  lemma DefaultAttempts()
    ensures Total(DEF_FIRST_DELAY, DEF_MAX_DELAY, DEF_MAX_ATTEMPTS) <= 2 * HOUR
            < Total(DEF_FIRST_DELAY, DEF_MAX_DELAY, DEF_MAX_ATTEMPTS + 1)
  {
    assert Delay(30, 480, 3) == 100 && Total(30, 480, 3) == 142;
    assert Delay(30, 480, 6) == 337 && Total(30, 480, 6) == 617;
    assert Delay(30, 480, 7) == 480 && Total(30, 480, 7) == 954;
    DefaultTotal(20);
    DefaultTotal(21);
  }

  lemma {:induction false} DefaultTotal(n: nat)
    requires n >= 7 && Delay(30, 480, 7) == 480 && Total(30, 480, 7) == 954
    ensures Delay(30, 480, n) == 480 && Total(30, 480, n) == 954 + 480 * (n - 7)
  {
    hide NextDelay;
    if n > 7 {
      DefaultTotal(n - 1);
    }
  }

  // ----- the constants -----

  /** max_attempts, first_delay and max_delay once the driver has read them. */
  datatype Constants = Constants(maxAttempts: Word, first: Word, maxDelay: Word)

  predicate Sane(c: Constants) {
    && 1 <= c.first <= c.maxDelay <= 3600
    && Total(c.first, c.maxDelay, c.maxAttempts as int) <= MAX_TOTAL_DELAY
  }

  function InRange(val: Word): Word { if val < 1 then 1 else if val > 3600 then 3600 else val }

  /** init_constants; None: the key or the value cannot be read. */
  method InitConstants(start: Constants, key: bool, attempts: Option<Word>, first: Option<Word>, max: Option<Word>)
    returns (c: Constants)
    ensures Sane(c)
    ensures !key ==> c == Constants(DEF_MAX_ATTEMPTS, DEF_FIRST_DELAY, DEF_MAX_DELAY)
    ensures key ==>
              var wanted := if attempts.Some? then attempts.value else start.maxAttempts;
              c.maxAttempts <= wanted &&
              (c.maxAttempts < wanted ==> MAX_TOTAL_DELAY < Total(c.first, c.maxDelay, c.maxAttempts as int + 1))
    ensures key ==>
              var f := if first.Some? then first.value else start.first;
              var m := if max.Some? then max.value else start.maxDelay;
              var f' := if f == 0 then 30 else if f > 3600 then 3600 else f;
              var m' := if m == 0 then 480 else if m > 3600 then 3600 else m;
              c.first == (if f' <= m' then f' else m') && c.maxDelay == if f' <= m' then m' else f'
    ensures MAX_TOTAL_DELAY == 259200
  {
    hide Total;
    if !key {
      DefaultAttempts();
      return Constants(DEF_MAX_ATTEMPTS, DEF_FIRST_DELAY, DEF_MAX_DELAY);
    }
    var maxAttempts := if attempts.Some? then attempts.value else start.maxAttempts;
    var firstDelay := if first.Some? then first.value else start.first;
    var maxDelay := if max.Some? then max.value else start.maxDelay;
    firstDelay := if firstDelay != 0 then InRange(firstDelay) else DEF_FIRST_DELAY;
    maxDelay := if maxDelay != 0 then InRange(maxDelay) else DEF_MAX_DELAY;
    if firstDelay > maxDelay {
      firstDelay, maxDelay := maxDelay, firstDelay;
    }
    var n := GetMaxAttachAttempts(firstDelay, maxDelay, MAX_TOTAL_DELAY);
    LargestCountThatFits(firstDelay, maxDelay, MAX_TOTAL_DELAY, n as int, maxAttempts as int);
    if maxAttempts > n {
      maxAttempts := n;
    }
    return Constants(maxAttempts, firstDelay, maxDelay);
  }

  // ----- one attach request -----

  /** attach_ctx; waited and waits record the timers it has started. */
  class AttachRequest {
    const constants: Constants
    const delayed: bool
    var retryCnt: nat
    var delay: Word
    ghost var waited: nat
    ghost var waits: nat

    ghost predicate Valid()
      reads this
    {
      && Sane(constants)
      && delay == Delay(constants.first, constants.maxDelay, waits)
      && waited == Total(constants.first, constants.maxDelay, waits) + (if delayed then START_DELAY else 0)
      && retryCnt == waits + (if delayed then 1 else 0)
      && (waits > 0 ==> retryCnt <= constants.maxAttempts as int)
    }

    /** start_attach_attempts: a delayed request counts as tried once. */
    constructor (constants: Constants, delayed: bool)
      requires Sane(constants)
      ensures Valid() && waits == 0 && waited == if delayed then START_DELAY else 0
    {
      this.constants, this.delayed := constants, delayed;
      retryCnt := if delayed then 1 else 0;
      delay := constants.first;
      waited, waits := if delayed then START_DELAY else 0, 0;
    }

    /** on_plugin_hardware; retry: whether another attempt follows. */
    method OnPluginHardware(failed: bool, canReattach: bool, removing: bool, reused: bool) returns (retry: bool)
      requires Valid()
      modifies this
      ensures retry <==> failed && canReattach && !removing && reused && old(retryCnt) < constants.maxAttempts as int
      ensures retry ==> Valid() && waits == old(waits) + 1
      ensures !retry ==> waited == old(waited)
      ensures retry ==> waited == old(waited) + old(delay) as int
      ensures retry ==> delay == NextDelay(old(delay), constants.maxDelay)
      ensures retryCnt == old(retryCnt) + 1
    {
      var cnt := retryCnt;
      retryCnt := retryCnt + 1;
      retry := failed && cnt < constants.maxAttempts as int && canReattach && !removing && reused;
      if retry {
        waited, waits := waited + delay as int, waits + 1;
        delay := NextDelay(delay, constants.maxDelay);
      }
    }

    /** Whatever answers it gets, a request waits no longer than 72 hours, and 30 seconds if it was delayed. */
    lemma WaitsNoLongerThanAllowed()
      requires Valid()
      ensures waited <= MAX_TOTAL_DELAY + START_DELAY
      ensures !delayed ==> waited <= MAX_TOTAL_DELAY
    {
      if waits < constants.maxAttempts as int {
        TotalGrows(constants.first, constants.maxDelay, waits, constants.maxAttempts as int);
      }
    }
  }
}
