/** Time stamps as two unsigned 32-bit fields, and their arithmetic in microseconds. */
module IperfTime {
  type uint32 = x: int | 0 <= x < 0x1_0000_0000

  datatype Time = Time(secs: uint32, usecs: uint32)

  const SEC: nat := 1_000_000
  const WORD: nat := 0x1_0000_0000
  /** Where the seconds field wraps around. */
  const HORIZON: nat := 0x1_0000_0000 * 1_000_000

  predicate Normal(t: Time) { t.usecs < SEC }

  /** `iperf_time_in_usecs` */
  function InUsecs(t: Time): nat { t.secs * SEC + t.usecs }

  /** `iperf_time_add_usecs`, with the wrap-around of both 32-bit fields. */
  function AddUsecs(t: Time, usecs: nat): Time {
    var secs := (t.secs + usecs / SEC) % WORD;
    var us := (t.usecs + usecs % SEC) % WORD;
    if us >= SEC then Time((secs + us / SEC) % WORD, us % SEC) else Time(secs, us)
  }

  /** `iperf_time_compare` */
  function Compare(a: Time, b: Time): int {
    if a.secs < b.secs then -1
    else if a.secs > b.secs then 1
    else if a.usecs < b.usecs then -1
    else if a.usecs > b.usecs then 1
    else 0
  }

  /** `iperf_time_diff`: the distance, and whether the first stamp is not the later one. */
  function Diff(a: Time, b: Time): (Time, bool) {
    var cmp := Compare(a, b);
    if cmp == 0 then (Time(0, 0), true)
    else if cmp == 1 then (Distance(a, b), false)
    else (Distance(b, a), true)
  }

  function Distance(later: Time, earlier: Time): Time {
    if later.usecs < earlier.usecs
    then Time((later.secs - earlier.secs - 1) % WORD, (later.usecs + SEC - earlier.usecs) % WORD)
    else Time((later.secs - earlier.secs) % WORD, later.usecs - earlier.usecs)
  }

  /** Adding microseconds is addition, modulo the horizon of the seconds field. */
  lemma AddIsModular(t: Time, usecs: nat)
    requires Normal(t)
    ensures Normal(AddUsecs(t, usecs))
    ensures InUsecs(AddUsecs(t, usecs)) == (InUsecs(t) + usecs) % HORIZON
  {
    var total := t.secs + usecs / SEC;
    var us := t.usecs + usecs % SEC;
    var carry := if us >= SEC then 1 else 0;
    var rest := us - carry * SEC;
    assert InUsecs(t) + usecs == (total + carry) * SEC + rest;
    assert us / SEC == carry && us % SEC == rest && us % WORD == us;
    WrapTwice(total, carry);
    WrapSeconds(total + carry, rest);
  }

  lemma WrapTwice(a: nat, b: nat)
    ensures (a % WORD + b) % WORD == (a + b) % WORD
  {
  }

  lemma WrapSeconds(secs: nat, rest: nat)
    requires rest < SEC
    ensures (secs * SEC + rest) % HORIZON == (secs % WORD) * SEC + rest
  {
    var q, r := secs / WORD, secs % WORD;
    assert secs * SEC + rest == q * HORIZON + (r * SEC + rest);
    ModOfMultiple(q, r * SEC + rest);
  }

  lemma {:induction false} ModOfMultiple(q: nat, r: nat)
    requires r < HORIZON
    ensures (q * HORIZON + r) % HORIZON == r
  {
  }

  /** Before the horizon the sum is exact, and past it it never is. */
  lemma AddIsExact(t: Time, usecs: nat)
    requires Normal(t)
    ensures InUsecs(AddUsecs(t, usecs)) == InUsecs(t) + usecs <==> InUsecs(t) + usecs < HORIZON
  {
    hide AddUsecs;
    AddIsModular(t, usecs);
  }

  /** Comparing stamps is comparing microseconds. */
  lemma CompareIsOrder(a: Time, b: Time)
    requires Normal(a) && Normal(b)
    ensures Compare(a, b) < 0 <==> InUsecs(a) < InUsecs(b)
    ensures Compare(a, b) > 0 <==> InUsecs(a) > InUsecs(b)
    ensures Compare(a, b) == 0 <==> a == b
  {
  }

  /** The difference is the distance in microseconds, whichever stamp is later. */
  lemma DiffIsDistance(a: Time, b: Time)
    requires Normal(a) && Normal(b)
    ensures var (d, past) := Diff(a, b);
      && (past <==> InUsecs(a) <= InUsecs(b))
      && InUsecs(d) == if past then InUsecs(b) - InUsecs(a) else InUsecs(a) - InUsecs(b)
  {
    hide InUsecs, Distance;
    CompareIsOrder(a, b);
    if Compare(a, b) > 0 {
      DistanceIsExact(a, b);
    } else if Compare(a, b) < 0 {
      DistanceIsExact(b, a);
    } else {
      ZeroIsNothing();
    }
  }

  lemma ZeroIsNothing()
    ensures InUsecs(Time(0, 0)) == 0
  {
  }

  lemma DistanceIsExact(later: Time, earlier: Time)
    requires Normal(later) && Normal(earlier) && InUsecs(earlier) < InUsecs(later)
    ensures InUsecs(Distance(later, earlier)) == InUsecs(later) - InUsecs(earlier)
  {
  }
}
