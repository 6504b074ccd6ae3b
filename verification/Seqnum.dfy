/** Sequence numbers of requests: a 32-bit counter, its number part above the direction bit. */
module Seqnum {

  const WORD: int := 0x1_0000_0000
  const NUMBERS: int := 0x7FFF_FFFF  // number parts in use: 1 up to 2^31 - 1

  type Seqnum = x: int | 0 <= x < 0x1_0000_0000

  function ExtractNum(seqnum: Seqnum): nat { seqnum / 2 }

  predicate ExtractDirIn(seqnum: Seqnum) { seqnum % 2 == 1 }

  /** The number part that follows number part n; n is zero before the first call. */
  function After(n: nat): (m: nat)
    requires n <= NUMBERS
    ensures 1 <= m <= NUMBERS
  {
    if n == NUMBERS then 1 else n + 1
  }

  function Part(counter: Seqnum): nat { counter % 0x8000_0000 }

  /** Counting up and shifting, in 32 bits. */
  lemma CountAndShift(counter: Seqnum)
    ensures var next := (counter + 1) % 0x1_0000_0000;
            && Part(next) == (if Part(counter) == NUMBERS then 0 else Part(counter) + 1)
            && next * 2 % 0x1_0000_0000 == 2 * Part(next)
  {
  }

  /** The number part that the k-th call hands out, counted from one, when the counter stands at n. */
  function Nth(n: nat, k: nat): (m: nat)
    requires n <= NUMBERS && k >= 1
    ensures 1 <= m <= NUMBERS
  {
    if k == 1 then After(n) else After(Nth(n, k - 1))
  }

  /** What a run of calls returned, latest last. */
  ghost predicate Issued(n: nat, nums: seq<Seqnum>) {
    n <= NUMBERS && forall k | 0 <= k < |nums| :: ExtractNum(nums[k]) == Nth(n, k + 1)
  }

  /** The number part at which such a run leaves the counter. */
  function Last(n: nat, nums: seq<Seqnum>): nat {
    if nums == [] then n else ExtractNum(nums[|nums| - 1])
  }

  lemma IssuedNext(n: nat, nums: seq<Seqnum>, num: Seqnum)
    requires Issued(n, nums) && Last(n, nums) <= NUMBERS && ExtractNum(num) == After(Last(n, nums))
    ensures Issued(n, nums + [num])
  {
  }

  class Device {
    var seqnum: Seqnum
    ghost var issued: seq<Seqnum>  // every number handed out, latest last

    ghost predicate Valid()
      reads this
    {
      Issued(0, issued) && Current() == Last(0, issued)
    }

    constructor ()
      ensures Valid() && seqnum == 0 && issued == []
    {
      seqnum, issued := 0, [];
    }

    /** The number part the counter stands at. */
    ghost function Current(): (n: nat)
      reads this
      ensures n <= NUMBERS
    {
      Part(seqnum)
    }

    /** Skips the counter values that the shift would turn into zero. */
    method NextSeqnum(dirIn: bool) returns (num: Seqnum)
      requires Valid()
      modifies this
      ensures Valid() && issued == old(issued) + [num]
      ensures ExtractNum(num) == After(old(Current())) == Current() > 0
      ensures ExtractDirIn(num) == dirIn
    {
      hide Part, Nth;
      ghost var was := Current();
      while true
        invariant Current() == was || (Current() == 0 && was == NUMBERS)
        invariant issued == old(issued)
        decreases if Current() == NUMBERS then 1 else 0
      {
        CountAndShift(seqnum);
        seqnum := (seqnum + 1) % 0x1_0000_0000;
        num := seqnum * 2 % 0x1_0000_0000;
        if num != 0 {
          num := num + if dirIn then 1 else 0;
          IssuedNext(0, issued, num);
          issued := issued + [num];
          return;
        }
      }
    }
  }

  // ----- runs of calls -----

  /** turns: how many turns of the number range the first k calls make. */
  lemma {:induction false} NthIs(n: nat, k: nat) returns (turns: nat)
    requires n <= NUMBERS && k >= 1
    ensures Nth(n, k) == n + k - 0x7FFF_FFFF * turns
  {
    if k == 1 {
      return if n == NUMBERS then 1 else 0;
    }
    turns := NthIs(n, k - 1);
    if Nth(n, k - 1) == NUMBERS {
      turns := turns + 1;
    }
  }

  lemma TurnsDiffer(calls: int, step: int, turns: int)
    requires 0 < calls <= 0x7FFF_FFFF && -0x7FFF_FFFF < step < 0x7FFF_FFFF
    requires step == calls - 0x7FFF_FFFF * turns
    ensures step == 0 <==> calls == 0x7FFF_FFFF
  {
    assert turns == 0 || turns == 1;
  }

  /** Any 2^31 - 1 consecutive calls hand out different number parts, none of them zero; one call more
      repeats the first of them. */
  lemma NumbersRepeatExactlyAfterAll(n: nat, i: nat, j: nat)
    requires n <= NUMBERS && 1 <= i < j <= i + NUMBERS
    ensures Nth(n, i) == Nth(n, j) <==> j == i + NUMBERS
  {
    var p := NthIs(n, i);
    var q := NthIs(n, j);
    TurnsDiffer(j - i, Nth(n, j) - Nth(n, i), q - p);
  }

  /** A response matches at most one of the requests listed, whatever their directions, as long as no
      listed request is more than 2^31 - 2 calls older than another. */
  lemma ResponseMatchesAtMostOne(n: nat, nums: seq<Seqnum>, listed: set<nat>, response: Seqnum, i: nat, j: nat)
    requires Issued(n, nums)
    requires forall k | k in listed :: k < |nums|
    requires forall k, l | k in listed && l in listed :: k <= l + NUMBERS - 1
    requires i in listed && j in listed
    requires ExtractNum(nums[i]) == ExtractNum(response) == ExtractNum(nums[j])
    ensures i == j
  {
    if i < j {
      NumbersRepeatExactlyAfterAll(n, i + 1, j + 1);
    } else if j < i {
      NumbersRepeatExactlyAfterAll(n, j + 1, i + 1);
    }
  }
}
