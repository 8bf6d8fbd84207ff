/**
 The daily flush timer. Time is counted in seconds from a local midnight; clock changes and early
 wake-ups are not modelled. The endless loop becomes a loop over any sequence of what the
 environment does in its rounds.
 */
module MidnightTimer {

  const ONE_DAY_IN_HOURS := 24
  const EXEC_HOUR_TIME := 23
  const EXEC_MIN_TIME := 60
  const ONE_MINUTE_IN_SECONDS := 60
  const ONE_HOUR_IN_SECONDS := 3600
  const DAY := 86400

  function HourOf(t: nat): nat
  {
    t / 3600 % 24
  }

  function MinuteOf(t: nat): nat
  {
    t / 60 % 60
  }

  function DayOf(t: nat): nat
  {
    t / DAY
  }

  function SecondOf(t: nat): nat
  {
    t % DAY
  }

  /** The two sleep branches. */
  function SleepTime(hour: nat, min: nat): int
  {
    if EXEC_MIN_TIME - min != EXEC_MIN_TIME then
      (EXEC_MIN_TIME - min) * ONE_MINUTE_IN_SECONDS + (EXEC_HOUR_TIME - hour) * ONE_HOUR_IN_SECONDS
    else
      ONE_HOUR_IN_SECONDS * (ONE_DAY_IN_HOURS - hour)
  }

  /**
   One round of the loop: reading the clock failed and the thread slept an hour, or it slept until
   its time and flushed. `late` is how much later than asked it woke, `busy` how long the flush took.
   */
  datatype Round = ClockFailed(late: nat) | Flush(late: nat, busy: nat)

  function WakeTime(t: nat, round: Round): int
  {
    t + round.late + if round.ClockFailed? then ONE_HOUR_IN_SECONDS else SleepTime(HourOf(t), MinuteOf(t))
  }

  /** Both branches sleep to the second of the next midnight that the current minute started with. */
  lemma SleepEndsAtMidnight(t: nat)
    ensures SleepTime(HourOf(t), MinuteOf(t)) == DAY - 3600 * HourOf(t) - 60 * MinuteOf(t)
    ensures 60 <= SleepTime(HourOf(t), MinuteOf(t)) <= DAY
    ensures t + SleepTime(HourOf(t), MinuteOf(t)) == (t / DAY + 1) * DAY + t % 60
  {
    ClockDigits(t);
  }

  lemma ClockDigits(t: nat)
    ensures t == t / DAY * DAY + 3600 * HourOf(t) + 60 * MinuteOf(t) + t % 60
    ensures HourOf(t) < 24 && MinuteOf(t) < 60
  {
    assert t == 60 * (t / 60) + t % 60;
    assert t / 60 == 60 * (t / 3600) + MinuteOf(t);
    assert t / 3600 == 24 * (t / DAY) + HourOf(t);
  }

  /** The times at which the rounds start their flushes. */
  function FlushTimes(t: nat, rounds: seq<Round>): seq<nat>
    decreases |rounds|
  {
    if rounds == [] then []
    else
      SleepEndsAtMidnight(t);
      var woken := WakeTime(t, rounds[0]);
      if rounds[0].ClockFailed? then FlushTimes(woken, rounds[1..])
      else [woken] + FlushTimes(woken + rounds[0].busy, rounds[1..])
  }

  /**
   Round by round: after a failed clock read the next round starts an hour and the wake-up delay later;
   a flush starts that delay after the second of the next midnight, and the next round when it is over.
   */
  lemma RoundByRound(t: nat, late: nat, busy: nat, rest: seq<Round>)
    ensures FlushTimes(t, []) == []
    ensures FlushTimes(t, [ClockFailed(late)] + rest) == FlushTimes(t + 3600 + late, rest)
    ensures var start := (t / 86400 + 1) * 86400 + t % 60 + late;
            FlushTimes(t, [Flush(late, busy)] + rest) == [start] + FlushTimes(start + busy, rest)
  {
    hide HourOf, MinuteOf, SleepTime;
    SleepEndsAtMidnight(t);
    assert ([ClockFailed(late)] + rest)[1..] == rest && ([Flush(late, busy)] + rest)[1..] == rest;
  }

  function FlushRounds(rounds: seq<Round>): nat
  {
    if rounds == [] then 0 else (if rounds[0].Flush? then 1 else 0) + FlushRounds(rounds[1..])
  }

  /** There are as many flushes as rounds that read the clock: failed reads stop nothing. */
  lemma {:induction false} FlushesAsOftenAsFlushRounds(t: nat, rounds: seq<Round>)
    ensures |FlushTimes(t, rounds)| == FlushRounds(rounds)
    decreases |rounds|
  {
    if rounds != [] {
      hide HourOf, MinuteOf, SleepTime;
      SleepEndsAtMidnight(t);
      var woken := WakeTime(t, rounds[0]);
      FlushesAsOftenAsFlushRounds(if rounds[0].Flush? then woken + rounds[0].busy else woken, rounds[1..]);
    }
  }

  /** The loop of the timer thread. */
  method TimerLoop(start: nat, rounds: seq<Round>) returns (flushes: seq<nat>)
    ensures flushes == FlushTimes(start, rounds)
  {
    flushes := [];
    var current := start;
    for i := 0 to |rounds|
      invariant flushes + FlushTimes(current, rounds[i..]) == FlushTimes(start, rounds)
    {
      assert rounds[i..][1..] == rounds[i + 1..];
      var currentHour, currentMin := HourOf(current), MinuteOf(current);
      SleepEndsAtMidnight(current);
      match rounds[i]
      case ClockFailed(late) =>
        current := current + ONE_HOUR_IN_SECONDS + late;
      case Flush(late, busy) =>
        if EXEC_MIN_TIME - currentMin != EXEC_MIN_TIME {
          var nHours := EXEC_HOUR_TIME - currentHour;
          var nMin := EXEC_MIN_TIME - currentMin;
          var nTime := nMin * ONE_MINUTE_IN_SECONDS + nHours * ONE_HOUR_IN_SECONDS;
          current := current + nTime + late;
        } else {
          current := current + ONE_HOUR_IN_SECONDS * (ONE_DAY_IN_HOURS - currentHour) + late;
        }
        flushes := flushes + [current];
        current := current + busy;
    }
  }

  /** Waking and flushing together are delayed by at most `bound`. */
  ghost predicate Punctual(rounds: seq<Round>, bound: nat)
  {
    forall i :: 0 <= i < |rounds| && rounds[i].Flush? ==> rounds[i].late + rounds[i].busy <= bound
  }

  lemma FlushFallsInNextDay(t: nat, round: Round, bound: nat)
    requires round.Flush? && round.late + round.busy <= bound && 60 + bound <= DAY
    ensures var woken := WakeTime(t, round);
            woken >= 0 && DayOf(woken) == DayOf(t) + 1 && SecondOf(woken) < 60 + bound
            && DayOf(woken + round.busy) == DayOf(t) + 1
  {
    SleepEndsAtMidnight(t);
    var woken := WakeTime(t, round);
    var offset := t % 60 + round.late;
    assert woken == (t / DAY + 1) * DAY + offset;
    assert 0 <= offset < DAY && 0 <= offset + round.busy < DAY;
  }

  lemma LaterIsNoEarlierDay(t: nat, u: nat)
    requires t <= u
    ensures DayOf(t) <= DayOf(u)
  {
  }

  /** Each flush starts shortly after the midnight of a day later than `day`, no two in one day. */
  ghost predicate OncePerDayAfter(day: int, flushes: seq<nat>, bound: nat)
  {
    (forall k :: 0 <= k < |flushes| ==> DayOf(flushes[k]) > day && SecondOf(flushes[k]) < 60 + bound)
    && (forall i, k :: 0 <= i < k < |flushes| ==> DayOf(flushes[i]) < DayOf(flushes[k]))
  }

  lemma OneMoreFlush(day: int, first: nat, later: seq<nat>, bound: nat)
    requires DayOf(first) > day && SecondOf(first) < 60 + bound
    requires OncePerDayAfter(DayOf(first), later, bound)
    ensures OncePerDayAfter(day, [first] + later, bound)
  {
    hide DayOf, SecondOf;
    assert forall k :: 0 < k < |[first] + later| ==> ([first] + later)[k] == later[k - 1];
  }

  /**
   Drift never accumulates: over every run, also one with failed clock reads, each flush starts less
   than a minute plus the delay bound after a midnight, and later flushes fall in later days.
   */
  lemma {:induction false} FlushesFollowMidnight(t: nat, rounds: seq<Round>, bound: nat)
    requires Punctual(rounds, bound) && 60 + bound <= DAY
    ensures OncePerDayAfter(DayOf(t), FlushTimes(t, rounds), bound)
    decreases |rounds|
  {
    hide DayOf, SecondOf, SleepTime;
    if rounds != [] {
      SleepEndsAtMidnight(t);
      var woken := WakeTime(t, rounds[0]);
      if rounds[0].ClockFailed? {
        FlushesFollowMidnight(woken, rounds[1..], bound);
        LaterIsNoEarlierDay(t, woken);
      } else {
        FlushFallsInNextDay(t, rounds[0], bound);
        FlushesFollowMidnight(woken + rounds[0].busy, rounds[1..], bound);
        OneMoreFlush(DayOf(t), woken, FlushTimes(woken + rounds[0].busy, rounds[1..]), bound);
      }
    }
  }

  /** As long as the clock can be read, each day after the start has exactly one flush. */
  lemma {:induction false} OneFlushPerDay(t: nat, rounds: seq<Round>, bound: nat)
    requires Punctual(rounds, bound) && 60 + bound <= DAY
    requires forall i :: 0 <= i < |rounds| ==> rounds[i].Flush?
    ensures var flushes := FlushTimes(t, rounds);
            |flushes| == |rounds| && forall k :: 0 <= k < |flushes| ==> DayOf(flushes[k]) == DayOf(t) + 1 + k
    decreases |rounds|
  {
    hide DayOf, SecondOf, SleepTime;
    if rounds != [] {
      SleepEndsAtMidnight(t);
      FlushFallsInNextDay(t, rounds[0], bound);
      OneFlushPerDay(WakeTime(t, rounds[0]) + rounds[0].busy, rounds[1..], bound);
    }
  }
}
