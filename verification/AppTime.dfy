/** The millisecond clock kept from a free-running 32-bit counter. */
module AppTime {
  import opened Words

  const CPU_CLOCK_FREQUENCY: nat := 48_000_000
  /** The CPU clock behind a prescaler of 1024. */
  const COUNTS_PER_SECOND: nat := 46875
  const WRAP: nat := 0x1_0000_0000
  const WRAP64: nat := 0x1_0000_0000_0000_0000

  lemma PrescaledClock()
    ensures COUNTS_PER_SECOND == CPU_CLOCK_FREQUENCY / 1024
    ensures COUNTS_PER_SECOND * 1024 == CPU_CLOCK_FREQUENCY
  {}

  const WAIT_ATTEMPTS: nat := 1_000_000

  /** The three static variables. */
  datatype Clock = Clock(lastCount: uint32, ms: uint32, remainder: uint32)

  /** Whole milliseconds after n counts, on a clock that never wraps. */
  function MsAt(n: nat): nat {
    n * 1000 / COUNTS_PER_SECOND
  }

  /** What an ideal clock started at the given counter value holds after n counts. */
  function Exact(origin: uint32, n: nat): Clock {
    Clock((origin + n) % WRAP, MsAt(n) % WRAP, n * 1000 % COUNTS_PER_SECOND)
  }

  /** The 64-bit product. */
  function Scaled(elapsed: uint32, remainder: uint32): nat {
    (elapsed * 1000 + remainder) % WRAP64
  }

  /** The 32-bit sum with the truncated quotient. */
  function Advanced(ms: uint32, scaled: nat): uint32 {
    (ms + scaled / COUNTS_PER_SECOND % WRAP) % WRAP
  }

  function Carried(scaled: nat): uint32 {
    scaled % COUNTS_PER_SECOND
  }

  /** One poll, with the truncations of the source's 64- and 32-bit arithmetic. */
  function Poll(c: Clock, count: uint32): Clock {
    var scaled := Scaled(Elapsed32(count, c.lastCount), c.remainder);
    Clock(count, Advanced(c.ms, scaled), Carried(scaled))
  }

  lemma WrapSum(a: nat, b: nat)
    ensures (a % WRAP + b) % WRAP == (a + b) % WRAP
  {
    var q := a / WRAP;
    assert a + b == a % WRAP + b + q * WRAP;
    WrapShift(a % WRAP + b, q);
  }

  lemma WrapShift(x: int, k: int)
    ensures (x + k * WRAP) % WRAP == x % WRAP
  {}

  lemma ElapsedIsGap(origin: nat, n: nat, gap: nat)
    ensures ((origin + n + gap) % WRAP - (origin + n) % WRAP) % WRAP == gap % WRAP
  {
    var a, b := (origin + n + gap) / WRAP, (origin + n) / WRAP;
    assert (origin + n + gap) % WRAP - (origin + n) % WRAP == gap + (b - a) * WRAP;
    WrapShift(gap, b - a);
  }

  lemma DivisionIs(x: int, q: int, r: int)
    requires x == q * 46875 + r && 0 <= r < 46875
    ensures x / 46875 == q && x % 46875 == r
  {}

  /** Carrying the remainder makes the division of the sum the sum of the divisions. */
  lemma CarryRemainder(n: nat, gap: nat)
    ensures var scaled := gap * 1000 + n * 1000 % COUNTS_PER_SECOND;
      && MsAt(n) + scaled / COUNTS_PER_SECOND == MsAt(n + gap)
      && scaled % COUNTS_PER_SECOND == (n + gap) * 1000 % COUNTS_PER_SECOND
  {
    var q, r := n * 1000 / 46875, n * 1000 % 46875;
    var scaled := gap * 1000 + r;
    DivisionIs((n + gap) * 1000, q + scaled / 46875, scaled % 46875);
  }

  /** Neither the 64-bit product nor the 32-bit quotient is ever truncated. */
  lemma NoOverflow(elapsed: uint32, remainder: nat)
    requires remainder < COUNTS_PER_SECOND
    ensures elapsed * 1000 + remainder < WRAP64
    ensures (elapsed * 1000 + remainder) / COUNTS_PER_SECOND < WRAP
  {}

  lemma SmallMod(x: nat, m: nat)
    requires x < m
    ensures x % m == x
  {}

  lemma PollUntruncated(c: Clock, count: uint32, seen: uint32)
    requires seen == (count - c.lastCount) % WRAP && c.remainder < COUNTS_PER_SECOND
    ensures var scaled := seen * 1000 + c.remainder;
      Poll(c, count) == Clock(count, (c.ms + scaled / COUNTS_PER_SECOND) % WRAP, scaled % COUNTS_PER_SECOND)
  {
    var scaled := seen * 1000 + c.remainder;
    NoOverflow(seen, c.remainder);
    SmallMod(scaled, WRAP64);
    SmallMod(scaled / COUNTS_PER_SECOND, WRAP);
  }

  /** A poll after fewer counts than one wrap, seen exactly. */
  lemma PollSeen(origin: uint32, n: nat, count: uint32, seen: uint32)
    requires seen == (count - Exact(origin, n).lastCount) % WRAP
    ensures Poll(Exact(origin, n), count) ==
      Clock(count, MsAt(n + seen) % WRAP, (n + seen) * 1000 % COUNTS_PER_SECOND)
  {
    var c := Exact(origin, n);
    var q := (seen * 1000 + c.remainder) / COUNTS_PER_SECOND;
    PollUntruncated(c, count, seen);
    CarryRemainder(n, seen);
    hide MsAt, Poll;
    WrapSum(MsAt(n), q);
  }

  /** A poll at any later time moves the exact clock on by the gap modulo one counter wrap. */
  lemma PollIsExact(origin: uint32, n: nat, gap: nat)
    ensures Poll(Exact(origin, n), (origin + n + gap) % WRAP) == Exact(origin, n + gap % WRAP)
  {
    hide MsAt, Poll;
    var q := gap / WRAP;
    ElapsedIsGap(origin, n, gap);
    PollSeen(origin, n, (origin + n + gap) % WRAP, gap % WRAP);
    assert origin + n + gap == origin + n + gap % WRAP + q * WRAP;
    WrapShift(origin + n + gap % WRAP, q);
  }

  // ----- no drift -----

  function Total(gaps: seq<nat>): nat {
    if gaps == [] then 0 else Total(gaps[..|gaps| - 1]) + gaps[|gaps| - 1]
  }

  /** The clock after polls separated by the given counts, from initialization at the given counter. */
  function PollAll(origin: uint32, gaps: seq<nat>): Clock {
    if gaps == [] then Clock(origin, 0, 0)
    else Poll(PollAll(origin, gaps[..|gaps| - 1]), (origin + Total(gaps)) % WRAP)
  }

  predicate OncePerWrap(gaps: seq<nat>) {
    forall i :: 0 <= i < |gaps| ==> gaps[i] < WRAP
  }

  /** What the counter differences show of the total: each gap modulo one wrap. */
  function Seen(gaps: seq<nat>): nat {
    if gaps == [] then 0 else Seen(gaps[..|gaps| - 1]) + gaps[|gaps| - 1] % WRAP
  }

  /** The whole wraps that no poll saw. */
  function Missed(gaps: seq<nat>): nat {
    if gaps == [] then 0 else Missed(gaps[..|gaps| - 1]) + gaps[|gaps| - 1] / WRAP
  }

  lemma {:induction false} SeenAndMissed(gaps: seq<nat>)
    ensures Total(gaps) == Seen(gaps) + Missed(gaps) * WRAP
    ensures OncePerWrap(gaps) ==> Missed(gaps) == 0
  {
    if gaps != [] {
      SeenAndMissed(gaps[..|gaps| - 1]);
    }
  }

  /** Whatever the gaps, the clock is the exact clock of the counts the polls have seen. */
  lemma {:induction false} PollsAreExact(origin: uint32, gaps: seq<nat>)
    ensures PollAll(origin, gaps) == Exact(origin, Seen(gaps))
  {
    if gaps != [] {
      hide Exact, Poll;
      var front, gap := gaps[..|gaps| - 1], gaps[|gaps| - 1];
      PollsAreExact(origin, front);
      SeenAndMissed(front);
      WrapShift(origin + Seen(front) + gap, Missed(front));
      PollIsExact(origin, Seen(front), gap);
    } else {
      assert Exact(origin, 0) == Clock(origin, 0, 0);
    }
  }

  /** Polled once per wrap, the clock holds the whole milliseconds of the total and the exact fraction. */
  lemma NoDrift(origin: uint32, gaps: seq<nat>)
    requires OncePerWrap(gaps)
    ensures PollAll(origin, gaps) == Exact(origin, Total(gaps))
  {
    PollsAreExact(origin, gaps);
    SeenAndMissed(gaps);
  }

  lemma ScheduleIndependent(origin: uint32, a: seq<nat>, b: seq<nat>)
    requires OncePerWrap(a) && OncePerWrap(b) && Total(a) == Total(b)
    ensures PollAll(origin, a) == PollAll(origin, b)
  {
    NoDrift(origin, a);
    NoDrift(origin, b);
  }

  /** Whole wraps of the counter are a whole number of wraps of the milliseconds at multiples of 375 only. */
  lemma WrapsInMs(n: nat, q: nat)
    ensures MsAt(n + q * WRAP) % WRAP == MsAt(n) % WRAP <==> q % 375 == 0
  {
    var a, b := MsAt(n + q * WRAP), MsAt(n);
    var e := (n + q * WRAP) * 8 % 375 - n * 8 % 375;
    MsInLowestTerms(n);
    MsInLowestTerms(n + q * WRAP);
    assert 375 * (a - b) == 8 * q * WRAP - e;
    hide MsAt;
    if q % 375 == 0 {
      WholeWraps(a, b, q / 375, e);
    }
    if a % WRAP == b % WRAP {
      var m := a / WRAP - b / WRAP;
      assert a - b == m * WRAP;
      FractionIsZero(m, q, e);
    }
  }

  lemma MsInLowestTerms(n: nat)
    ensures MsAt(n) * 375 == n * 8 - n * 8 % 375
  {}

  lemma WholeWraps(a: int, b: int, k: nat, e: int)
    requires 375 * (a - b) == 8 * (375 * k) * WRAP - e && -375 < e < 375
    ensures a % WRAP == b % WRAP
  {
    assert a == b + 8 * k * WRAP;
    WrapShift(b, 8 * k);
  }

  lemma FractionIsZero(m: int, q: nat, e: int)
    requires 375 * (m * WRAP) == 8 * q * WRAP - e && -375 < e < 375
    ensures q % 375 == 0
  {
    assert e == (8 * q - 375 * m) * WRAP;
    assert 8 * q == 375 * m;
  }

  /** The time shown is right exactly when the wraps missed so far are a multiple of 375. */
  lemma RightTimeIff(origin: uint32, gaps: seq<nat>)
    ensures PollAll(origin, gaps).ms == MsAt(Total(gaps)) % WRAP <==> Missed(gaps) % 375 == 0
  {
    hide MsAt;
    PollsAreExact(origin, gaps);
    SeenAndMissed(gaps);
    WrapsInMs(Seen(gaps), Missed(gaps));
  }

  /**
   * A first poll that comes late does not count the whole wraps it missed, and shows the right time
   * exactly when they are a multiple of 375.
   */
  lemma LatePollLosesWraps(origin: uint32, gaps: seq<nat>, late: nat)
    requires OncePerWrap(gaps)
    ensures PollAll(origin, gaps + [late]).ms == MsAt(Total(gaps) + late % WRAP) % WRAP
    ensures PollAll(origin, gaps + [late]).ms == MsAt(Total(gaps) + late) % WRAP <==> late / WRAP % 375 == 0
  {
    var all := gaps + [late];
    assert all[..|all| - 1] == gaps;
    SeenAndMissed(gaps);
    assert Seen(all) == Total(gaps) + late % WRAP && Missed(all) == late / WRAP && Total(all) == Total(gaps) + late;
    hide PollAll, Seen, Missed, Total, MsAt;
    PollsAreExact(origin, all);
    ExactMs(origin, Seen(all));
    RightTimeIff(origin, all);
  }

  lemma OnePoll(gap: nat)
    ensures Seen([gap]) == gap % WRAP && Missed([gap]) == gap / WRAP && Total([gap]) == gap
  {
    assert [gap][..0] == [];
  }

  /** One missed wrap right after initialization: the clock shows 0 after more than 25 hours. */
  lemma OneMissedWrap(origin: uint32, gap: nat)
    requires gap == WRAP
    ensures PollAll(origin, [gap]).ms == 0 != MsAt(Total([gap])) % WRAP
  {
    hide PollAll, Seen, Missed, Total;
    OnePoll(gap);
    PollsAreExact(origin, [gap]);
    RightTimeIff(origin, [gap]);
  }

  // ----- the static state itself -----

  /** A bit seen set, fewer than a million times before it was seen clear, or a million times and given up. */
  predicate Waited(looks: seq<bool>, ok: bool) {
    && 0 < |looks| <= 1_000_000
    && (forall i :: 0 <= i < |looks| - 1 ==> looks[i])
    && (ok <==> !looks[|looks| - 1])
    && (!ok ==> |looks| == 1_000_000)
  }

  function Joined(waits: seq<seq<bool>>): (looks: seq<bool>) {
    if waits == [] then [] else Joined(waits[..|waits| - 1]) + waits[|waits| - 1]
  }

  class Timebase {
    var lastCount: uint32
    var ms: uint32
    var remainder: uint32
    /** The counter as hardware keeps it. */
    var counter: uint32
    /** Every look at a busy bit. */
    var busyReads: seq<bool>
    ghost var origin: uint32
    /** The counts the polls have seen, and the whole wraps they have not. */
    ghost var seen: nat
    ghost var missed: nat
    /** How often the clock has been sampled. */
    ghost var polls: nat

    ghost predicate Valid()
      reads this
    {
      && Clock(lastCount, ms, remainder) == Exact(origin, seen)
      && counter == lastCount
    }

    /** The counts since initialization. */
    ghost function Total(): nat
      reads this
    {
      seen + missed * WRAP
    }

    /** Initialization after the counter has been started and synchronized. */
    constructor (count: uint32)
      ensures Valid() && Total() == 0
    {
      lastCount := count;
      ms := 0;
      remainder := 0;
      counter := count;
      origin := count;
      seen, missed := 0, 0;
      busyReads := [];
      polls := 0;
      new;
      assert Exact(origin, 0) == Clock(origin, 0, 0);
    }

    /** One look at a busy bit of the hardware, which may stay set. */
    method ReadBusy() returns (busy: bool)
      modifies `busyReads
      ensures busyReads == old(busyReads) + [busy]
    {
      busy := *;
      busyReads := busyReads + [busy];
    }

    /** A bounded wait: until the bit is seen clear, or a million times set. */
    method WaitWhileBusy() returns (ok: bool, ghost looks: seq<bool>)
      modifies `busyReads
      ensures busyReads == old(busyReads) + looks && Waited(looks, ok)
    {
      var attempts := WAIT_ATTEMPTS;
      var busy := ReadBusy();
      looks := [busy];
      while busy
        invariant 0 < attempts && |looks| == WAIT_ATTEMPTS - attempts + 1
        invariant busyReads == old(busyReads) + looks
        invariant forall i :: 0 <= i < |looks| - 1 ==> looks[i]
        invariant busy == looks[|looks| - 1]
        decreases attempts
      {
        attempts := attempts - 1;
        if attempts == 0 {
          return false, looks;
        }
        busy := ReadBusy();
        looks := looks + [busy];
      }
      return true, looks;
    }

    /**
     * Generator, reset, enable and read request are each waited for; then the count starts again.
     * `waits` is what each wait saw.
     */
    method Initialize() returns (ok: bool, ghost waits: seq<seq<bool>>)
      requires Valid()
      modifies this
      ensures Valid()
      ensures 0 < |waits| <= 5 && (ok ==> |waits| == 5)
      ensures forall i :: 0 <= i < |waits| ==> Waited(waits[i], ok || i < |waits| - 1)
      ensures busyReads == old(busyReads) + Joined(waits)
      ensures ok ==> Total() == 0 && ms == 0 && lastCount == counter
      ensures !ok ==> Total() == old(Total()) && seen == old(seen) && ms == old(ms) && lastCount == old(lastCount)
    {
      hide Waited;
      waits := [];
      var attempt := 0;
      while attempt < 5
        invariant 0 <= attempt == |waits| <= 5
        invariant Valid() && Total() == old(Total()) && seen == old(seen)
        invariant ms == old(ms) && lastCount == old(lastCount)
        invariant forall i :: 0 <= i < |waits| ==> Waited(waits[i], true)
        invariant busyReads == old(busyReads) + Joined(waits)
      {
        var settled, looks := WaitWhileBusy();
        assert (waits + [looks])[..|waits|] == waits;
        waits := waits + [looks];
        if !settled {
          return false, waits;
        }
        attempt := attempt + 1;
      }
      Started();
      return true, waits;
    }

    /** The counter was reset and has been running since. */
    method Started()
      modifies this
      ensures Valid() && Total() == 0 && ms == 0 && lastCount == counter && busyReads == old(busyReads)
    {
      counter := *;
      lastCount := counter;
      ms := 0;
      remainder := 0;
      origin := counter;
      seen, missed := 0, 0;
      assert Exact(origin, 0) == Clock(origin, 0, 0);
    }

    /** Any number of counts may have passed; those beyond whole wraps are seen. */
    method NowMs() returns (now: uint32)
      requires Valid()
      modifies this
      ensures Valid() && now == ms == MsAt(seen) % WRAP
      ensures old(Total()) <= Total() && old(seen) <= seen < old(seen) + WRAP
      ensures old(missed) <= missed
      ensures Total() < old(Total()) + WRAP ==> missed == old(missed)
      ensures now == MsAt(Total()) % WRAP <==> missed % 375 == 0
      ensures origin == old(origin) && busyReads == old(busyReads) && polls == old(polls) + 1
    {
      hide Poll, MsAt, Exact, Scaled, Advanced, Carried, Elapsed32;
      ghost var before := Clock(lastCount, ms, remainder);
      var count, gap := ReadCount();
      var elapsed := Elapsed32(count, lastCount);
      var scaled := Scaled(elapsed, remainder);
      lastCount := count;
      ms := Advanced(ms, scaled);
      remainder := Carried(scaled);
      now := ms;
      assert Clock(lastCount, ms, remainder) == Poll(before, count) by { PollIs(before, count); }
      NextCount(origin, seen, gap);
      seen, missed := seen + gap % WRAP, missed + gap / WRAP;
      polls := polls + 1;
      ExactMs(origin, seen);
      WrapsInMs(seen, missed);
    }

    /** The counter runs on between polls. */
    method ReadCount() returns (count: uint32, ghost gap: nat)
      modifies `counter
      ensures count == counter == (old(counter) + gap) % WRAP
    {
      var passed: nat := *;
      gap := passed;
      counter := (counter + passed) % WRAP;
      count := counter;
    }
  }

  lemma PollIs(c: Clock, count: uint32)
    ensures Poll(c, count) ==
      var scaled := Scaled(Elapsed32(count, c.lastCount), c.remainder);
      Clock(count, Advanced(c.ms, scaled), Carried(scaled))
  {}

  lemma NextCount(origin: uint32, n: nat, gap: nat)
    ensures Poll(Exact(origin, n), (Exact(origin, n).lastCount + gap) % WRAP) == Exact(origin, n + gap % WRAP)
    ensures Exact(origin, n + gap % WRAP).lastCount == (Exact(origin, n).lastCount + gap) % WRAP
  {
    PollIsExact(origin, n, gap);
    ExactCount(origin, n);
    ExactCount(origin, n + gap % WRAP);
    hide Exact, Poll;
    WrapSum(origin + n, gap);
    assert origin + n + gap == origin + (n + gap % WRAP) + gap / WRAP * WRAP;
    WrapShift(origin + (n + gap % WRAP), gap / WRAP);
  }

  lemma ExactCount(origin: uint32, n: nat)
    ensures Exact(origin, n).lastCount == (origin + n) % WRAP
  {}

  lemma ExactMs(origin: uint32, n: nat)
    ensures Exact(origin, n).ms == MsAt(n) % WRAP
  {}
}
